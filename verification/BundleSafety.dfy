/** What a poll does to the files on disk: at every instant, after failures, and undone by the
    rollback (tesseract-proxy/internal/bundleupd/updater.go, `Tick` and `promote`;
    tesseract-proxy/cmd/proxy/main.go, `rollbackBundle`). */
module BundleSafety {
  import opened Options
  import opened Files
  import opened BundleLoad
  import opened BundleUpdater

  const CUR_BUNDLE := Path(BundleFile, Current)
  const CUR_SIG := Path(SignatureFile, Current)
  const OLD_BUNDLE := Path(BundleFile, Previous)
  const OLD_SIG := Path(SignatureFile, Previous)
  const NEW_BUNDLE := Path(BundleFile, Staged)
  const NEW_SIG := Path(SignatureFile, Staged)

  predicate Holds(d: Disk, p: Path, data: Bytes) {
    p in d && d[p] == data
  }

  /** The active pair. */
  predicate Active(d: Disk, bundle: Bytes, sig: Bytes) {
    Holds(d, CUR_BUNDLE, bundle) && Holds(d, CUR_SIG, sig)
  }

  predicate StagedPair(d: Disk, bundle: Bytes, sig: Bytes) {
    Holds(d, NEW_BUNDLE, bundle) && Holds(d, NEW_SIG, sig)
  }

  predicate SameAt(d: Disk, s: Disk, p: Path) {
    (p in s <==> p in d) && (p in d ==> s[p] == d[p])
  }

  /** Nothing under current or previous differs. */
  predicate SameKept(d: Disk, s: Disk) {
    SameAt(d, s, CUR_BUNDLE) && SameAt(d, s, CUR_SIG) && SameAt(d, s, OLD_BUNDLE) && SameAt(d, s, OLD_SIG)
  }

  ghost predicate OnlyStaging(d: Disk, states: seq<Disk>) {
    forall s :: s in states ==> SameKept(d, s)
  }

  lemma OnlyStagingAppend(d: Disk, xs: seq<Disk>, ys: seq<Disk>)
    requires OnlyStaging(d, xs) && OnlyStaging(After(d, xs), ys)
    ensures OnlyStaging(d, xs + ys) && SameKept(d, After(d, xs + ys))
    ensures After(d, xs + ys) == After(After(d, xs), ys)
  {
    assert xs != [] ==> After(d, xs) in xs;
    assert ys != [] ==> After(After(d, xs), ys) in ys;
  }

  lemma StageTouchesOnly(d: Disk, doc: Document, data: Bytes, fault: WriteFault, p: Path)
    requires p != Path(doc, Staged) && p != Path(doc, Temp)
    ensures forall s :: s in StageRun(d, doc, data, fault).states ==> SameAt(d, s, p)
    ensures SameAt(d, After(d, StageRun(d, doc, data, fault).states), p)
  {
    WriteIsAtomic(d, Path(doc, Staged), Path(doc, Temp), data, fault);
    hide WriteRun;
    var states := StageRun(d, doc, data, fault).states;
    assert Untouched(d, states, p);
    forall s | s in states ensures SameAt(d, s, p) {
      var k :| 0 <= k < |states| && states[k] == s;
    }
  }

  lemma StageRunOnlyStages(d: Disk, doc: Document, data: Bytes, fault: WriteFault)
    ensures OnlyStaging(d, StageRun(d, doc, data, fault).states)
    ensures StageRun(d, doc, data, fault).ok ==>
              Holds(After(d, StageRun(d, doc, data, fault).states), Path(doc, Staged), data)
    ensures fault.NoWriteFault? ==> StageRun(d, doc, data, fault).ok
    ensures forall p: Path :: p.doc != doc ==> SameAt(d, After(d, StageRun(d, doc, data, fault).states), p)
  {
    WriteIsAtomic(d, Path(doc, Staged), Path(doc, Temp), data, fault);
    StageTouchesOnly(d, doc, data, fault, CUR_BUNDLE);
    StageTouchesOnly(d, doc, data, fault, CUR_SIG);
    StageTouchesOnly(d, doc, data, fault, OLD_BUNDLE);
    StageTouchesOnly(d, doc, data, fault, OLD_SIG);
    hide WriteRun, SameAt;
    forall p: Path | p.doc != doc ensures SameAt(d, After(d, StageRun(d, doc, data, fault).states), p) {
      StageTouchesOnly(d, doc, data, fault, p);
    }
  }

  /** Staging, failed or not, never touches the current or previous files; when it succeeds both
      staged files hold exactly the fetched bytes. */
  lemma StageBothOnlyStages(d: Disk, bundle: Bytes, sig: Bytes, f: Faults)
    ensures var o := StageBoth(d, bundle, sig, f);
            && OnlyStaging(d, o.states) && SameKept(d, After(d, o.states))
            && (o.ok ==> StagedPair(After(d, o.states), bundle, sig))
            && (f.stageBundle.NoWriteFault? && f.stageSig.NoWriteFault? ==> o.ok)
  {
    hide StageRun, SameKept;
    var b := StageRun(d, BundleFile, bundle, f.stageBundle);
    StageRunOnlyStages(d, BundleFile, bundle, f.stageBundle);
    OnlyStagingAppend(d, [], b.states);
    assert [] + b.states == b.states;
    if b.ok {
      var d1 := After(d, b.states);
      var s := StageRun(d1, SignatureFile, sig, f.stageSig);
      StageRunOnlyStages(d1, SignatureFile, sig, f.stageSig);
      OnlyStagingAppend(d, b.states, s.states);
      if !s.ok {
        UnstageOnlyStages(After(d1, s.states), BundleFile, f.keepBundle);
        OnlyStagingAppend(d, b.states + s.states, Unstage(After(d1, s.states), BundleFile, f.keepBundle));
      }
    }
  }

  lemma UnstageOnlyStages(d: Disk, doc: Document, fails: bool)
    ensures OnlyStaging(d, Unstage(d, doc, fails))
  {
  }

  lemma UnstageBothOnlyStages(d: Disk, f: Faults)
    ensures OnlyStaging(d, UnstageBoth(d, f)) && SameKept(d, After(d, UnstageBoth(d, f)))
  {
    hide Unstage, SameKept;
    UnstageOnlyStages(d, BundleFile, f.keepBundle);
    var first := Unstage(d, BundleFile, f.keepBundle);
    UnstageOnlyStages(After(d, first), SignatureFile, f.keepSig);
    OnlyStagingAppend(d, first, Unstage(After(d, first), SignatureFile, f.keepSig));
  }

  // ----- the two promotes -----

  /** The document's old and new bytes both exist under its current, previous or staged path. */
  predicate BothExist(d: Disk, doc: Document, before: Bytes, after: Bytes) {
    && (Holds(d, Path(doc, Current), before) || Holds(d, Path(doc, Previous), before))
    && (Holds(d, Path(doc, Staged), after) || Holds(d, Path(doc, Current), after))
  }

  lemma PromoteDocKeepsBoth(d: Disk, doc: Document, before: Bytes, after: Bytes, fault: PromoteFault)
    requires Holds(d, Path(doc, Current), before) && Holds(d, Path(doc, Staged), after)
    ensures var o := PromoteDoc(d, doc, fault);
            && (forall s :: s in o.states ==> BothExist(s, doc, before, after))
            && (forall s: Disk, p: Path :: s in o.states && p.doc != doc ==> SameAt(d, s, p))
            && (o.ok <==> fault.NoPromoteFault?)
            && (o.ok ==> var e := After(d, o.states);
                  Holds(e, Path(doc, Current), after) && Holds(e, Path(doc, Previous), before)
                  && Path(doc, Staged) !in e)
  {
  }

  /** After every atomic step of the two promotes, whatever fails, the old bundle, the old signature,
      the new bundle and the new signature each still exist under current, previous or staged. */
  lemma PromotesKeepAllFour(d: Disk, ob: Bytes, os: Bytes, nb: Bytes, ns: Bytes,
                            bundleFault: PromoteFault, sigFault: PromoteFault)
    requires Active(d, ob, os) && StagedPair(d, nb, ns)
    ensures var o := PromoteBoth(d, bundleFault, sigFault);
            && (forall s :: s in o.states ==> BothExist(s, BundleFile, ob, nb) && BothExist(s, SignatureFile, os, ns))
            && (o.ok <==> bundleFault.NoPromoteFault? && sigFault.NoPromoteFault?)
            && (o.ok ==> var e := After(d, o.states);
                  Active(e, nb, ns) && Holds(e, OLD_BUNDLE, ob) && Holds(e, OLD_SIG, os))
  {
    var b := PromoteDoc(d, BundleFile, bundleFault);
    PromoteDocKeepsBoth(d, BundleFile, ob, nb, bundleFault);
    hide PromoteDoc;
    forall s | s in b.states ensures BothExist(s, SignatureFile, os, ns) {
      assert SameAt(d, s, CUR_SIG) && SameAt(d, s, NEW_SIG);
    }
    if b.ok {
      var d1 := After(d, b.states);
      assert b.states != [] ==> d1 in b.states;
      assert SameAt(d, d1, CUR_SIG) && SameAt(d, d1, NEW_SIG);
      PromoteDocKeepsBoth(d1, SignatureFile, os, ns, sigFault);
      var s2 := PromoteDoc(d1, SignatureFile, sigFault);
      forall s | s in s2.states ensures BothExist(s, BundleFile, ob, nb) {
        assert SameAt(d1, s, CUR_BUNDLE) && SameAt(d1, s, OLD_BUNDLE) && SameAt(d1, s, NEW_BUNDLE);
      }
      var e := After(d, b.states + s2.states);
      if s2.ok {
        assert s2.states != [] ==> After(d1, s2.states) in s2.states;
        assert e == After(d1, s2.states);
        assert SameAt(d1, e, CUR_BUNDLE) && SameAt(d1, e, OLD_BUNDLE);
      }
    }
  }

  /** Promoting works from any disk that has the staged pair, current files or not. */
  lemma PromotesFromAnywhere(d: Disk, nb: Bytes, ns: Bytes)
    requires StagedPair(d, nb, ns)
    ensures var o := PromoteBoth(d, NoPromoteFault, NoPromoteFault);
            o.ok && Active(After(d, o.states), nb, ns)
  {
    var b := PromoteDoc(d, BundleFile, NoPromoteFault);
    var d1 := After(d, b.states);
    assert b.ok && Holds(d1, CUR_BUNDLE, nb) && SameAt(d, d1, NEW_SIG);
    var s := PromoteDoc(d1, SignatureFile, NoPromoteFault);
    var d2 := After(d1, s.states);
    assert s.ok && Holds(d2, CUR_SIG, ns) && SameAt(d1, d2, CUR_BUNDLE);
    assert After(d, b.states + s.states) == d2;
  }

  // ----- whole polls -----

  /** A document's bytes are still there under current or previous. */
  predicate Kept(d: Disk, doc: Document, data: Bytes) {
    Holds(d, Path(doc, Current), data) || Holds(d, Path(doc, Previous), data)
  }

  lemma SameKeptKeeps(d: Disk, s: Disk, ob: Bytes, os: Bytes)
    requires Active(d, ob, os) && SameKept(d, s)
    ensures Active(s, ob, os)
  {
  }

  ghost predicate AllKeep(states: seq<Disk>, ob: Bytes, os: Bytes) {
    forall s :: s in states ==> Kept(s, BundleFile, ob) && Kept(s, SignatureFile, os)
  }

  lemma StagingKeeps(d: Disk, states: seq<Disk>, ob: Bytes, os: Bytes)
    requires Active(d, ob, os) && OnlyStaging(d, states)
    ensures AllKeep(states, ob, os)
  {
    hide SameKept;
    forall s | s in states ensures Kept(s, BundleFile, ob) && Kept(s, SignatureFile, os) {
      SameKeptKeeps(d, s, ob, os);
    }
  }

  lemma PromotesKeep(d: Disk, ob: Bytes, os: Bytes, nb: Bytes, ns: Bytes, bundleFault: PromoteFault, sigFault: PromoteFault)
    requires Active(d, ob, os) && StagedPair(d, nb, ns)
    ensures AllKeep(PromoteBoth(d, bundleFault, sigFault).states, ob, os)
  {
    PromotesKeepAllFour(d, ob, os, nb, ns, bundleFault, sigFault);
    hide PromoteBoth;
  }

  /** At every instant of a poll, with any failures, the pair that was active at its start still
      exists under current or previous, byte for byte. */
  lemma TickKeepsOldPair(w: World, d: Disk, m: Memory, fetch: Fetch, f: Faults, ob: Bytes, os: Bytes)
    requires Active(d, ob, os)
    ensures forall s :: s in TickRun(w, d, m, fetch, f).states ==> Kept(s, BundleFile, ob) && Kept(s, SignatureFile, os)
  {
    assert AllKeep([], ob, os);
    if fetch.Fetched? {
      hide StageBoth, UnstageBoth, PromoteBoth, LoadStaged, Published, OnlyStaging, SameKept, Active, StagedPair, Kept;
      var o := StageBoth(d, fetch.bundle, fetch.sig, f);
      StageBothOnlyStages(d, fetch.bundle, fetch.sig, f);
      StagingKeeps(d, o.states, ob, os);
      var d1 := After(d, o.states);
      SameKeptKeeps(d, d1, ob, os);
      UnstageBothOnlyStages(d1, f);
      StagingKeeps(d1, UnstageBoth(d1, f), ob, os);
      if o.ok {
        PromotesKeep(d1, ob, os, fetch.bundle, fetch.sig, f.promoteBundle, f.promoteSig);
      }
    }
  }

  /** A failed poll leaves the published table, both memories and the host list alone: a rejected
      bundle is never remembered as seen. */
  lemma FailedTickForgets(w: World, d: Disk, m: Memory, fetch: Fetch, f: Faults)
    requires !TickRun(w, d, m, fetch, f).ok
    ensures TickRun(w, d, m, fetch, f).mem == m
  {
    hide StageBoth, UnstageBoth, PromoteBoth, LoadStaged, Published;
  }

  lemma AfterAppend(d: Disk, xs: seq<Disk>, ys: seq<Disk>)
    ensures After(d, xs + ys) == After(After(d, xs), ys)
  {
  }

  /** A fault-free poll of an acceptable, unseen bundle stages, loads and promotes. */
  lemma CleanTickUnfold(w: World, d: Disk, m: Memory, bundle: Bytes, sig: Bytes, etag: string)
    requires bundle != [] && w.hash(bundle) != m.lastHash
    requires Load(w, bundle, sig, LiveVersion(m)).Some?
    ensures var o := StageBoth(d, bundle, sig, NO_FAULTS);
            var p := PromoteBoth(After(d, o.states), NoPromoteFault, NoPromoteFault);
            var r := TickRun(w, d, m, Fetched(bundle, sig, etag), NO_FAULTS);
            && r.states == o.states + p.states && r.ok == p.ok
            && (r.ok ==> r.mem == Published(w, Load(w, bundle, sig, LiveVersion(m)).value, bundle, etag))
  {
    StageBothOnlyStages(d, bundle, sig, NO_FAULTS);
    assert sig != [];
    hide StageBoth, PromoteBoth, Load, Published, SameKept, OnlyStaging;
  }

  /** A fault-free poll of an acceptable, unseen bundle installs and publishes it from any state of
      the disk, however earlier polls failed. */
  lemma CleanTickInstalls(w: World, d: Disk, m: Memory, bundle: Bytes, sig: Bytes, etag: string)
    requires bundle != [] && w.hash(bundle) != m.lastHash
    requires Load(w, bundle, sig, LiveVersion(m)).Some?
    ensures var r := TickRun(w, d, m, Fetched(bundle, sig, etag), NO_FAULTS);
            && r.ok && Active(After(d, r.states), bundle, sig)
            && r.mem == Published(w, Load(w, bundle, sig, LiveVersion(m)).value, bundle, etag)
  {
    var o := StageBoth(d, bundle, sig, NO_FAULTS);
    StageBothOnlyStages(d, bundle, sig, NO_FAULTS);
    PromotesFromAnywhere(After(d, o.states), bundle, sig);
    var p := PromoteBoth(After(d, o.states), NoPromoteFault, NoPromoteFault);
    CleanTickUnfold(w, d, m, bundle, sig, etag);
    hide *;
    AfterAppend(d, o.states, p.states);
  }

  /** A poll that fails at any step is healed by a fault-free poll that fetches an acceptable unseen bundle,
      the same one again or another. */
  lemma FailureHeals(w: World, d: Disk, m: Memory, first: Fetch, f: Faults, bundle: Bytes, sig: Bytes, etag: string)
    requires !TickRun(w, d, m, first, f).ok
    requires bundle != [] && w.hash(bundle) != m.lastHash && Load(w, bundle, sig, LiveVersion(m)).Some?
    ensures var r1 := TickRun(w, d, m, first, f);
            var r2 := TickRun(w, After(d, r1.states), r1.mem, Fetched(bundle, sig, etag), NO_FAULTS);
            && r2.ok && Active(After(After(d, r1.states), r2.states), bundle, sig)
            && r2.mem.live == Some(Load(w, bundle, sig, LiveVersion(m)).value.table)
  {
    hide TickRun, Load;
    FailedTickForgets(w, d, m, first, f);
    var r1 := TickRun(w, d, m, first, f);
    CleanTickInstalls(w, After(d, r1.states), r1.mem, bundle, sig, etag);
  }

  predicate Signed(w: World, bundle: Bytes, sig: Bytes) {
    sig != [] && w.verify(bundle, sig)
  }

  /** The active pair is there and its signature is the bundle's. */
  predicate Matching(w: World, d: Disk) {
    CUR_BUNDLE in d && CUR_SIG in d && Signed(w, d[CUR_BUNDLE], d[CUR_SIG])
  }

  /** The poll fetches a bundle that it has not seen and that passes every gate. */
  predicate Installs(w: World, m: Memory, fetch: Fetch) {
    && fetch.Fetched? && fetch.bundle != []
    && w.hash(fetch.bundle) != m.lastHash
    && Load(w, fetch.bundle, fetch.sig, LiveVersion(m)).Some?
  }

  lemma LoadedIsSigned(w: World, bundle: Bytes, sig: Bytes, previous: string)
    requires Load(w, bundle, sig, previous).Some?
    ensures sig != [] && w.verify(bundle, sig)
  {
  }

  /** A fault-free poll that does not install leaves the current and previous files alone. */
  lemma IdleTickKeeps(w: World, d: Disk, m: Memory, fetch: Fetch)
    requires !Installs(w, m, fetch)
    ensures SameKept(d, After(d, TickRun(w, d, m, fetch, NO_FAULTS).states))
  {
    if fetch.Fetched? && fetch.bundle != [] && fetch.sig != [] && w.hash(fetch.bundle) != m.lastHash {
      var o := StageBoth(d, fetch.bundle, fetch.sig, NO_FAULTS);
      StageBothOnlyStages(d, fetch.bundle, fetch.sig, NO_FAULTS);
      var d1 := After(d, o.states);
      UnstageBothOnlyStages(d1, NO_FAULTS);
      assert LoadStaged(w, d1, LiveVersion(m), false).None?;
      AfterAppend(d, o.states, UnstageBoth(d1, NO_FAULTS));
      hide StageBoth, UnstageBoth, Load, OnlyStaging;
    }
  }

  /** Exactly when a fault-free poll leaves a matching pair: it installs, or there was one before. */
  lemma MatchingAfterCleanTick(w: World, d: Disk, m: Memory, fetch: Fetch)
    ensures Matching(w, After(d, TickRun(w, d, m, fetch, NO_FAULTS).states)) <==> Installs(w, m, fetch) || Matching(w, d)
  {
    hide TickRun, Load;
    if Installs(w, m, fetch) {
      CleanTickInstalls(w, d, m, fetch.bundle, fetch.sig, fetch.etag);
      LoadedIsSigned(w, fetch.bundle, fetch.sig, LiveVersion(m));
    } else {
      IdleTickKeeps(w, d, m, fetch);
    }
  }

  /** What a poll leaves whose second promote fails: the new bundle with the old signature, or with none
      while the old one is under previous. */
  lemma HalfTick(w: World, d: Disk, m: Memory, first: Fetch, fault: PromoteFault, ob: Bytes, os: Bytes)
    requires Active(d, ob, os) && Installs(w, m, first) && !fault.NoPromoteFault?
    ensures var r := TickRun(w, d, m, first, NO_FAULTS.(promoteSig := fault));
            var e := After(d, r.states);
            && !r.ok && r.mem == m
            && Holds(e, CUR_BUNDLE, first.bundle)
            && (if fault.InstallFails? then CUR_SIG !in e && Holds(e, OLD_SIG, os) else Holds(e, CUR_SIG, os))
  {
    var f := NO_FAULTS.(promoteSig := fault);
    var o := StageBoth(d, first.bundle, first.sig, f);
    StageBothOnlyStages(d, first.bundle, first.sig, f);
    var d0 := After(d, o.states);
    LoadedIsSigned(w, first.bundle, first.sig, LiveVersion(m));
    HalfPromote(d0, ob, os, first.bundle, first.sig, fault);
    AfterAppend(d, o.states, PromoteBoth(d0, NoPromoteFault, fault).states);
    hide StageBoth, PromoteBoth, Load, OnlyStaging, Published;
  }

  lemma HalfPromote(d: Disk, ob: Bytes, os: Bytes, nb: Bytes, ns: Bytes, fault: PromoteFault)
    requires Active(d, ob, os) && StagedPair(d, nb, ns) && !fault.NoPromoteFault?
    ensures var o := PromoteBoth(d, NoPromoteFault, fault);
            var e := After(d, o.states);
            && !o.ok && Holds(e, CUR_BUNDLE, nb)
            && (if fault.InstallFails? then CUR_SIG !in e && Holds(e, OLD_SIG, os) else Holds(e, CUR_SIG, os))
  {
  }

  /** So a half-done promotion is not always healed by the next poll: when the second promote failed and the
      server goes back to the content the updater remembers, the poll succeeds by a short cut and the new
      bundle stays beside the old signature, or beside none. */
  lemma HalfPromoteStays(w: World, d: Disk, m: Memory, first: Fetch, fault: PromoteFault, next: Fetch, ob: Bytes, os: Bytes)
    requires Active(d, ob, os) && Installs(w, m, first) && !w.verify(first.bundle, os) && !fault.NoPromoteFault?
    requires next.NotModified? || (next.Fetched? && next.bundle != [] && next.sig != [] && w.hash(next.bundle) == m.lastHash)
    ensures var r1 := TickRun(w, d, m, first, NO_FAULTS.(promoteSig := fault));
            var d1 := After(d, r1.states);
            var r2 := TickRun(w, d1, r1.mem, next, NO_FAULTS);
            && !r1.ok && r2.ok && r2.states == []
            && Holds(d1, CUR_BUNDLE, first.bundle) && !Matching(w, d1)
            && (fault.InstallFails? ==> CUR_SIG !in d1) && (!fault.InstallFails? ==> Holds(d1, CUR_SIG, os))
  {
    HalfTick(w, d, m, first, fault, ob, os);
    hide Install, Load;
  }

  /** A rejected bundle leaves nothing behind when the cleanup works: neither staged file exists. */
  lemma RejectedIsDiscarded(w: World, d: Disk, m: Memory, fetch: Fetch, f: Faults)
    requires fetch.Fetched? && fetch.bundle != [] && fetch.sig != [] && w.hash(fetch.bundle) != m.lastHash
    requires f.stageBundle.NoWriteFault? && f.stageSig.NoWriteFault? && !f.keepBundle && !f.keepSig
    requires f.unreadable || Load(w, fetch.bundle, fetch.sig, LiveVersion(m)).None?
    ensures var e := After(d, TickRun(w, d, m, fetch, f).states); NEW_BUNDLE !in e && NEW_SIG !in e
  {
    var o := StageBoth(d, fetch.bundle, fetch.sig, f);
    StageBothOnlyStages(d, fetch.bundle, fetch.sig, f);
    var d1 := After(d, o.states);
    AfterAppend(d, o.states, UnstageBoth(d1, f));
    UnstagedIsGone(d1, f);
    hide StageBoth, UnstageBoth, Load, OnlyStaging, SameKept;
  }

  lemma UnstagedIsGone(d: Disk, f: Faults)
    requires !f.keepBundle && !f.keepSig
    ensures var e := After(d, UnstageBoth(d, f)); NEW_BUNDLE !in e && NEW_SIG !in e
  {
  }

  /** And when only the second staged write fails, the first is taken back. */
  lemma HalfStagedIsDiscarded(d: Disk, bundle: Bytes, sig: Bytes, f: Faults)
    requires f.stageBundle.NoWriteFault? && !f.stageSig.NoWriteFault? && !f.keepBundle
    ensures var o := StageBoth(d, bundle, sig, f); !o.ok && NEW_BUNDLE !in After(d, o.states)
  {
    var b := StageRun(d, BundleFile, bundle, f.stageBundle);
    var d1 := After(d, b.states);
    StageRunOnlyStages(d, BundleFile, bundle, f.stageBundle);
    var s := StageRun(d1, SignatureFile, sig, f.stageSig);
    WriteIsAtomic(d1, NEW_SIG, Path(SignatureFile, Temp), sig, f.stageSig);
    AfterAppend(d, b.states + s.states, Unstage(After(d1, s.states), BundleFile, f.keepBundle));
    AfterAppend(d, b.states, s.states);
    hide StageRun;
  }

  // ----- rollback -----

  /** What a fault-free installing poll leaves, including the previous pair. */
  lemma CleanTickRotates(w: World, d: Disk, m: Memory, bundle: Bytes, sig: Bytes, etag: string, ob: Bytes, os: Bytes)
    requires bundle != [] && w.hash(bundle) != m.lastHash
    requires Load(w, bundle, sig, LiveVersion(m)).Some? && Active(d, ob, os)
    ensures var e := After(d, TickRun(w, d, m, Fetched(bundle, sig, etag), NO_FAULTS).states);
            Active(e, bundle, sig) && Holds(e, OLD_BUNDLE, ob) && Holds(e, OLD_SIG, os)
  {
    var o := StageBoth(d, bundle, sig, NO_FAULTS);
    StageBothOnlyStages(d, bundle, sig, NO_FAULTS);
    PromotesKeepAllFour(After(d, o.states), ob, os, bundle, sig, NoPromoteFault, NoPromoteFault);
    var p := PromoteBoth(After(d, o.states), NoPromoteFault, NoPromoteFault);
    CleanTickUnfold(w, d, m, bundle, sig, etag);
    hide *;
    AfterAppend(d, o.states, p.states);
  }

  /** A rollback after a fault-free install restores the earlier pair. */
  lemma RollbackRestores(w: World, d: Disk, m: Memory, bundle: Bytes, sig: Bytes, etag: string, ob: Bytes, os: Bytes)
    requires bundle != [] && w.hash(bundle) != m.lastHash
    requires Load(w, bundle, sig, LiveVersion(m)).Some? && Active(d, ob, os)
    ensures var e := After(d, TickRun(w, d, m, Fetched(bundle, sig, etag), NO_FAULTS).states);
            var o := RollbackRun(e, NoRollbackFault);
            o.ok && Active(After(e, o.states), ob, os)
  {
    hide TickRun, Load;
    CleanTickRotates(w, d, m, bundle, sig, etag, ob, os);
  }

  function At(d: Disk, p: Path): Option<Bytes> {
    if p in d then Some(d[p]) else None
  }

  /** What an install moves or leaves under previous. */
  function Prior(d: Disk, doc: Document): Option<Bytes> {
    if Path(doc, Current) in d then Some(d[Path(doc, Current)]) else At(d, Path(doc, Previous))
  }

  lemma PromoteDocRotates(d: Disk, doc: Document, data: Bytes)
    requires Holds(d, Path(doc, Staged), data)
    ensures var e := After(d, PromoteDoc(d, doc, NoPromoteFault).states);
            && Holds(e, Path(doc, Current), data) && At(e, Path(doc, Previous)) == Prior(d, doc)
            && forall p: Path :: p.doc != doc ==> SameAt(d, e, p)
    ensures PromoteDoc(d, doc, NoPromoteFault).ok
  {
  }

  lemma PromotesRotate(d: Disk, nb: Bytes, ns: Bytes)
    requires StagedPair(d, nb, ns)
    ensures var o := PromoteBoth(d, NoPromoteFault, NoPromoteFault);
            var e := After(d, o.states);
            && o.ok && Active(e, nb, ns)
            && At(e, OLD_BUNDLE) == Prior(d, BundleFile) && At(e, OLD_SIG) == Prior(d, SignatureFile)
  {
    var b := PromoteDoc(d, BundleFile, NoPromoteFault);
    var d1 := After(d, b.states);
    PromoteDocRotates(d, BundleFile, nb);
    assert SameAt(d, d1, NEW_SIG) && SameAt(d, d1, CUR_SIG) && SameAt(d, d1, OLD_SIG);
    PromoteDocRotates(d1, SignatureFile, ns);
    var s := PromoteDoc(d1, SignatureFile, NoPromoteFault);
    var e := After(d1, s.states);
    hide PromoteDoc;
    AfterAppend(d, b.states, s.states);
    assert SameAt(d1, e, CUR_BUNDLE) && SameAt(d1, e, OLD_BUNDLE);
  }

  /** What a fault-free installing poll leaves, whatever the disk was like: the new pair under current, and
      of each document under previous what was current, or else what was previous before. */
  lemma InstallLeaves(w: World, d: Disk, m: Memory, fetch: Fetch)
    requires Installs(w, m, fetch)
    ensures var r := TickRun(w, d, m, fetch, NO_FAULTS);
            var e := After(d, r.states);
            && r.ok && Active(e, fetch.bundle, fetch.sig)
            && At(e, OLD_BUNDLE) == Prior(d, BundleFile) && At(e, OLD_SIG) == Prior(d, SignatureFile)
  {
    var o := StageBoth(d, fetch.bundle, fetch.sig, NO_FAULTS);
    StageBothOnlyStages(d, fetch.bundle, fetch.sig, NO_FAULTS);
    var d1 := After(d, o.states);
    assert Prior(d1, BundleFile) == Prior(d, BundleFile) && Prior(d1, SignatureFile) == Prior(d, SignatureFile);
    PromotesRotate(d1, fetch.bundle, fetch.sig);
    CleanTickUnfold(w, d, m, fetch.bundle, fetch.sig, fetch.etag);
    AfterAppend(d, o.states, PromoteBoth(d1, NoPromoteFault, NoPromoteFault).states);
    hide *;
  }

  /** A rollback from the new pair: it succeeds exactly when both documents were there before, and then they
      are the pair; it leaves a matching pair exactly when there was no earlier bundle, or the earlier
      signature (the new one, if there was none) signs it. */
  lemma RollbackLeaves(w: World, e: Disk, bundle: Bytes, sig: Bytes)
    requires Active(e, bundle, sig) && Signed(w, bundle, sig)
    ensures var o := RollbackRun(e, NoRollbackFault);
            var ob, os := At(e, OLD_BUNDLE), At(e, OLD_SIG);
            && (o.ok <==> ob.Some? && os.Some?)
            && (o.ok ==> Active(After(e, o.states), ob.value, os.value))
            && (Matching(w, After(e, o.states)) <==> ob.Some? ==> Signed(w, ob.value, if os.Some? then os.value else sig))
  {
  }

  /** The rollback after a fault-free install, whatever earlier polls have left on the disk. */
  lemma RollbackAfterInstall(w: World, d: Disk, m: Memory, fetch: Fetch)
    requires Installs(w, m, fetch)
    ensures var e := After(d, TickRun(w, d, m, fetch, NO_FAULTS).states);
            var o := RollbackRun(e, NoRollbackFault);
            var ob, os := Prior(d, BundleFile), Prior(d, SignatureFile);
            && (o.ok <==> ob.Some? && os.Some?)
            && (o.ok ==> Active(After(e, o.states), ob.value, os.value))
            && (Matching(w, After(e, o.states)) <==>
                  ob.Some? ==> Signed(w, ob.value, if os.Some? then os.value else fetch.sig))
  {
    InstallLeaves(w, d, m, fetch);
    LoadedIsSigned(w, fetch.bundle, fetch.sig, LiveVersion(m));
    hide TickRun, RollbackRun, Load;
    RollbackLeaves(w, After(d, TickRun(w, d, m, fetch, NO_FAULTS).states), fetch.bundle, fetch.sig);
  }

  /** In particular, after a half-failed promotion has been healed by a clean install, a clean rollback
      brings back the half-promoted bundle with the older signature: the older bundle is gone. */
  lemma HealedRollbackIsMixed(w: World, d: Disk, m: Memory, first: Fetch, fault: PromoteFault, next: Fetch, ob: Bytes, os: Bytes)
    requires Active(d, ob, os) && Installs(w, m, first) && Installs(w, m, next) && !fault.NoPromoteFault?
    ensures var r1 := TickRun(w, d, m, first, NO_FAULTS.(promoteSig := fault));
            var d1 := After(d, r1.states);
            var r2 := TickRun(w, d1, r1.mem, next, NO_FAULTS);
            var d2 := After(d1, r2.states);
            var o := RollbackRun(d2, NoRollbackFault);
            && !r1.ok && r2.ok && o.ok && Active(After(d2, o.states), first.bundle, os)
  {
    HalfTick(w, d, m, first, fault, ob, os);
    var d1 := After(d, TickRun(w, d, m, first, NO_FAULTS.(promoteSig := fault)).states);
    assert Prior(d1, BundleFile) == Some(first.bundle) && Prior(d1, SignatureFile) == Some(os);
    hide TickRun, RollbackRun, Load, Installs, Prior;
    InstallLeaves(w, d1, m, next);
    RollbackAfterInstall(w, d1, m, next);
  }

  /** A rollback that fails at its second rename leaves a mixed pair, and repeating it can never finish:
      the bundle half has used up the only previous bundle. */
  lemma HalfRollbackIsStuck(d: Disk, ob: Bytes, os: Bytes, nb: Bytes, ns: Bytes, again: RollbackFault)
    requires Active(d, nb, ns) && Holds(d, OLD_BUNDLE, ob) && Holds(d, OLD_SIG, os)
    ensures var e := After(d, RollbackRun(d, SigRenameFails).states);
            && !RollbackRun(d, SigRenameFails).ok
            && Active(e, ob, ns) && Holds(e, OLD_SIG, os)
            && RollbackRun(e, again) == Outcome([], false)
  {
  }

  /** The disk after any number of attempts. */
  function Retried(d: Disk, faults: seq<RollbackFault>): Disk
    decreases |faults|
  {
    if faults == [] then d else Retried(After(d, RollbackRun(d, faults[0]).states), faults[1..])
  }

  /** A rollback succeeds exactly when both previous files exist and no rename fails. */
  lemma RollbackNeedsBoth(d: Disk, fault: RollbackFault)
    ensures RollbackRun(d, fault).ok <==> OLD_BUNDLE in d && OLD_SIG in d && fault.NoRollbackFault?
    ensures OLD_BUNDLE !in d || OLD_SIG !in d ==>
              var e := After(d, RollbackRun(d, fault).states); OLD_BUNDLE !in e || OLD_SIG !in e
  {
  }

  lemma {:induction false} MissingStaysMissing(d: Disk, faults: seq<RollbackFault>)
    requires OLD_BUNDLE !in d || OLD_SIG !in d
    ensures OLD_BUNDLE !in Retried(d, faults) || OLD_SIG !in Retried(d, faults)
    decreases |faults|
  {
    hide RollbackRun;
    if faults != [] {
      RollbackNeedsBoth(d, faults[0]);
      MissingStaysMissing(After(d, RollbackRun(d, faults[0]).states), faults[1..]);
    }
  }

  ghost predicate Finishes(d: Disk) {
    exists g :: RollbackRun(d, g).ok
  }

  ghost predicate FinishesAfterRetries(d: Disk) {
    exists gs :: Finishes(Retried(d, gs))
  }

  lemma FinishesIffBoth(d: Disk)
    ensures Finishes(d) <==> OLD_BUNDLE in d && OLD_SIG in d
  {
    forall g ensures RollbackRun(d, g).ok <==> OLD_BUNDLE in d && OLD_SIG in d && g.NoRollbackFault? {
      RollbackNeedsBoth(d, g);
    }
    hide RollbackRun;
    assert RollbackRun(d, NoRollbackFault).ok <==> OLD_BUNDLE in d && OLD_SIG in d;
  }

  lemma FailedRollbackLeaves(d: Disk, f: RollbackFault)
    requires !RollbackRun(d, f).ok
    ensures var e := After(d, RollbackRun(d, f).states);
            OLD_BUNDLE in e && OLD_SIG in e <==> OLD_BUNDLE in d && OLD_SIG in d && f.BundleRenameFails?
  {
  }

  /** Exactly when a failed rollback can be finished by repeating it, at once or after further failures:
      both previous files were there and the first rename is what failed. */
  lemma RollbackRepeatable(d: Disk, f: RollbackFault)
    requires !RollbackRun(d, f).ok
    ensures var e := After(d, RollbackRun(d, f).states);
            && (Finishes(e) <==> OLD_BUNDLE in d && OLD_SIG in d && f.BundleRenameFails?)
            && (FinishesAfterRetries(e) <==> OLD_BUNDLE in d && OLD_SIG in d && f.BundleRenameFails?)
  {
    var e := After(d, RollbackRun(d, f).states);
    FailedRollbackLeaves(d, f);
    hide RollbackRun, Finishes;
    FinishesIffBoth(e);
    if Finishes(e) {
      assert Retried(e, []) == e;
    } else {
      forall gs ensures !Finishes(Retried(e, gs)) {
        MissingStaysMissing(e, gs);
        FinishesIffBoth(Retried(e, gs));
      }
    }
  }

  // ----- crashes -----

  /** A process starting on this disk finds an acceptable pair. */
  predicate Boots(w: World, d: Disk) {
    LoadCurrent(w, d).Some?
  }

  /** The disks a crash can leave during the two promotes of a fault-free poll: before, and after each
      of the four renames. */
  function CrashPoints(d: Disk): seq<Disk> {
    [d] + PromoteBoth(d, NoPromoteFault, NoPromoteFault).states
  }

  lemma PromoteDocSteps(d: Disk, doc: Document)
    requires Path(doc, Current) in d && Path(doc, Staged) in d
    ensures var o := PromoteDoc(d, doc, NoPromoteFault);
            && o.ok && |o.states| == 2
            && Path(doc, Current) !in o.states[0]
            && Holds(o.states[1], Path(doc, Current), d[Path(doc, Staged)])
            && forall p: Path :: p.doc != doc ==> SameAt(d, o.states[0], p) && SameAt(d, o.states[1], p)
  {
  }

  lemma CrashStates(d: Disk, ob: Bytes, os: Bytes, nb: Bytes, ns: Bytes)
    requires Active(d, ob, os) && StagedPair(d, nb, ns)
    ensures var c := CrashPoints(d);
            && |c| == 5 && c[0] == d
            && CUR_BUNDLE !in c[1] && Active(c[2], nb, os) && CUR_SIG !in c[3] && Active(c[4], nb, ns)
  {
    PromoteDocSteps(d, BundleFile);
    var b := PromoteDoc(d, BundleFile, NoPromoteFault);
    var d2 := b.states[1];
    assert SameAt(d, d2, CUR_SIG) && SameAt(d, d2, NEW_SIG);
    PromoteDocSteps(d2, SignatureFile);
    var s := PromoteDoc(d2, SignatureFile, NoPromoteFault);
    hide PromoteDoc;
    assert SameAt(d2, s.states[1], CUR_BUNDLE);
    assert CrashPoints(d) == [d] + (b.states + s.states);
  }

  lemma BootsOnActive(w: World, d: Disk, bundle: Bytes, sig: Bytes)
    requires Active(d, bundle, sig)
    ensures Boots(w, d) <==> Load(w, bundle, sig, "").Some?
  {
    hide Load;
  }

  lemma MissingDoesNotBoot(w: World, d: Disk)
    requires CUR_BUNDLE !in d || CUR_SIG !in d
    ensures !Boots(w, d)
  {
    hide Load;
  }

  lemma UnsignedDoesNotLoad(w: World, bundle: Bytes, sig: Bytes, previous: string)
    requires !w.verify(bundle, sig)
    ensures Load(w, bundle, sig, previous).None?
  {
  }

  /** Each file alone is always recoverable, but the pair is not crash-safe: a process can start exactly
      when the crash came before the first rename or after the last, as long as the old signature does
      not happen to sign the new bundle. */
  lemma CrashWindow(w: World, d: Disk, ob: Bytes, os: Bytes, nb: Bytes, ns: Bytes)
    requires Active(d, ob, os) && StagedPair(d, nb, ns)
    requires Load(w, ob, os, "").Some? && Load(w, nb, ns, "").Some? && !w.verify(nb, os)
    ensures |CrashPoints(d)| == 5
    ensures forall k :: 0 <= k < 5 ==> (Boots(w, CrashPoints(d)[k]) <==> k == 0 || k == 4)
  {
    hide *;
    CrashStates(d, ob, os, nb, ns);
    var c := CrashPoints(d);
    UnsignedDoesNotLoad(w, nb, os, "");
    BootsOnActive(w, c[0], ob, os);
    MissingDoesNotBoot(w, c[1]);
    BootsOnActive(w, c[2], nb, os);
    MissingDoesNotBoot(w, c[3]);
    BootsOnActive(w, c[4], nb, ns);
  }

  /** What any step of the two promotes leaves of the active pair: a gap, the new bundle with the old
      signature, or the new pair. */
  lemma PromoteStates(d: Disk, ob: Bytes, os: Bytes, nb: Bytes, ns: Bytes, bundleFault: PromoteFault, sigFault: PromoteFault)
    requires Active(d, ob, os) && StagedPair(d, nb, ns)
    ensures forall s :: s in PromoteBoth(d, bundleFault, sigFault).states ==>
              || CUR_BUNDLE !in s || CUR_SIG !in s
              || Active(s, nb, os) || Active(s, nb, ns)
  {
    var b := PromoteDoc(d, BundleFile, bundleFault);
    PromoteDocStates(d, BundleFile, ob, nb, bundleFault);
    hide PromoteDoc;
    forall s | s in b.states ensures CUR_BUNDLE !in s || Active(s, nb, os) {
      assert SameAt(d, s, CUR_SIG);
    }
    if b.ok {
      var d1 := After(d, b.states);
      assert SameAt(d, d1, CUR_SIG) && SameAt(d, d1, NEW_SIG);
      PromoteDocStates(d1, SignatureFile, os, ns, sigFault);
      forall s | s in PromoteDoc(d1, SignatureFile, sigFault).states ensures CUR_SIG !in s || Active(s, nb, ns) {
        assert SameAt(d1, s, CUR_BUNDLE);
      }
    }
  }

  lemma PromoteDocStates(d: Disk, doc: Document, before: Bytes, after: Bytes, fault: PromoteFault)
    requires Holds(d, Path(doc, Current), before) && Holds(d, Path(doc, Staged), after)
    ensures var o := PromoteDoc(d, doc, fault);
            && (forall s :: s in o.states ==> Path(doc, Current) !in s || Holds(s, Path(doc, Current), after))
            && (forall s: Disk, p: Path :: s in o.states && p.doc != doc ==> SameAt(d, s, p))
            && (o.ok ==> Holds(After(d, o.states), Path(doc, Current), after) && After(d, o.states) in o.states)
  {
  }

  ghost predicate BootsOnPairs(w: World, states: seq<Disk>, ob: Bytes, os: Bytes, nb: Bytes, ns: Bytes) {
    forall s :: s in states ==>
      && (Boots(w, s) <==> Matching(w, s))
      && (!w.verify(nb, os) ==> (Boots(w, s) <==> Active(s, ob, os) || Active(s, nb, ns)))
  }

  lemma StagingBoots(w: World, d: Disk, states: seq<Disk>, ob: Bytes, os: Bytes, nb: Bytes, ns: Bytes)
    requires Active(d, ob, os) && Load(w, ob, os, "").Some? && OnlyStaging(d, states)
    ensures BootsOnPairs(w, states, ob, os, nb, ns)
  {
    LoadedIsSigned(w, ob, os, "");
    hide SameKept, Boots, Load;
    forall s | s in states ensures Boots(w, s) && Active(s, ob, os) {
      SameKeptKeeps(d, s, ob, os);
      BootsOnActive(w, s, ob, os);
    }
  }

  /** Whether the same bundle loads with another signature depends on that signature alone. */
  lemma LoadsIfSigned(w: World, bundle: Bytes, sig: Bytes, other: Bytes)
    requires Load(w, bundle, sig, "").Some?
    ensures Load(w, bundle, other, "").Some? <==> Signed(w, bundle, other)
  {
  }

  lemma PromotesBoot(w: World, d: Disk, ob: Bytes, os: Bytes, nb: Bytes, ns: Bytes, bundleFault: PromoteFault, sigFault: PromoteFault)
    requires Active(d, ob, os) && StagedPair(d, nb, ns)
    requires Load(w, ob, os, "").Some? && Load(w, nb, ns, "").Some?
    ensures BootsOnPairs(w, PromoteBoth(d, bundleFault, sigFault).states, ob, os, nb, ns)
  {
    PromoteStates(d, ob, os, nb, ns, bundleFault, sigFault);
    LoadedIsSigned(w, ob, os, "");
    LoadedIsSigned(w, nb, ns, "");
    LoadsIfSigned(w, nb, ns, os);
    hide PromoteBoth, Boots, Load;
    forall s | s in PromoteBoth(d, bundleFault, sigFault).states
      ensures (Boots(w, s) <==> Matching(w, s))
              && (!w.verify(nb, os) ==> (Boots(w, s) <==> Active(s, ob, os) || Active(s, nb, ns)))
    {
      if CUR_BUNDLE !in s || CUR_SIG !in s {
        MissingDoesNotBoot(w, s);
      } else if Active(s, nb, os) {
        BootsOnActive(w, s, nb, os);
      } else {
        BootsOnActive(w, s, nb, ns);
      }
    }
  }

  /** After any step of any poll, with any failures, a process that starts there finds an acceptable pair
      exactly when both current files are present and the signature is the bundle's; that is, unless the old
      signature happens to sign the new bundle, when they come from the same pair. */
  lemma CrashAnywhere(w: World, d: Disk, m: Memory, f: Faults, ob: Bytes, os: Bytes, nb: Bytes, ns: Bytes, etag: string)
    requires Active(d, ob, os) && Load(w, ob, os, "").Some?
    ensures forall s :: s in TickRun(w, d, m, Fetched(nb, ns, etag), f).states ==>
              && (Boots(w, s) <==> Matching(w, s))
              && (!w.verify(nb, os) ==> (Boots(w, s) <==> Active(s, ob, os) || Active(s, nb, ns)))
  {
    var o := StageBoth(d, nb, ns, f);
    StageBothOnlyStages(d, nb, ns, f);
    var d1 := After(d, o.states);
    UnstageBothOnlyStages(d1, f);
    hide StageBoth, UnstageBoth, PromoteBoth, Load, Published, OnlyStaging, SameKept, Active, StagedPair, Boots, Matching;
    StagingBoots(w, d, o.states, ob, os, nb, ns);
    SameKeptKeeps(d, d1, ob, os);
    StagingBoots(w, d1, UnstageBoth(d1, f), ob, os, nb, ns);
    if o.ok && LoadStaged(w, d1, LiveVersion(m), f.unreadable).Some? {
      StagedLoads(w, d1, nb, ns, LiveVersion(m), f.unreadable);
      PromotesBoot(w, d1, ob, os, nb, ns, f.promoteBundle, f.promoteSig);
    }
  }

  lemma StagedLoads(w: World, d: Disk, nb: Bytes, ns: Bytes, previous: string, unreadable: bool)
    requires StagedPair(d, nb, ns) && LoadStaged(w, d, previous, unreadable).Some?
    ensures Load(w, nb, ns, "").Some?
  {
    BootAcceptsMore(w, nb, ns, previous);
    hide Load;
  }
}
