/** Polling for bundles: stage, verify, promote, publish; and the offline rollback
    (tesseract-proxy/internal/bundleupd/updater.go; tesseract-proxy/cmd/proxy/main.go, `rollbackBundle`).
    Polls are taken one at a time. */
module BundleUpdater {
  import opened Options
  import opened Files
  import Profile
  import Router
  import opened BundleLoad
  import Ordering

  // ----- files -----

  datatype Document = BundleFile | SignatureFile
  datatype Slot = Current | Previous | Staged | Temp

  /** The configured path of a document and its suffixed siblings, taken to be distinct. */
  datatype Path = Path(doc: Document, slot: Slot)

  type Disk = Tree<Path>

  /** Which steps of one poll fail. */
  datatype Faults = Faults(stageBundle: WriteFault, stageSig: WriteFault, unreadable: bool,
                           keepBundle: bool, keepSig: bool,
                           promoteBundle: PromoteFault, promoteSig: PromoteFault)

  const NO_FAULTS := Faults(NoWriteFault, NoWriteFault, false, false, false, NoPromoteFault, NoPromoteFault)

  function StageRun(d: Disk, doc: Document, data: Bytes, fault: WriteFault): Outcome<Path> {
    WriteRun(d, Path(doc, Staged), Path(doc, Temp), data, fault)
  }

  function PromoteDoc(d: Disk, doc: Document, fault: PromoteFault): Outcome<Path> {
    PromoteRun(d, Path(doc, Current), Path(doc, Previous), Path(doc, Staged), fault)
  }

  function Unstage(d: Disk, doc: Document, fails: bool): seq<Disk> {
    Removed(d, Path(doc, Staged), fails)
  }

  /** Both promotes, bundle first. */
  function PromoteBoth(d: Disk, bundleFault: PromoteFault, sigFault: PromoteFault): Outcome<Path> {
    var b := PromoteDoc(d, BundleFile, bundleFault);
    if !b.ok then b
    else
      var s := PromoteDoc(After(d, b.states), SignatureFile, sigFault);
      Outcome(b.states + s.states, s.ok)
  }

  /** Both files are written to their staged paths, or the attempt is cleaned up. */
  function StageBoth(d: Disk, bundle: Bytes, sig: Bytes, f: Faults): Outcome<Path> {
    var b := StageRun(d, BundleFile, bundle, f.stageBundle);
    if !b.ok then b
    else
      var d1 := After(d, b.states);
      var s := StageRun(d1, SignatureFile, sig, f.stageSig);
      if s.ok then Outcome(b.states + s.states, true)
      else Outcome(b.states + s.states + Unstage(After(d1, s.states), BundleFile, f.keepBundle), false)
  }

  function UnstageBoth(d: Disk, f: Faults): seq<Disk> {
    var first := Unstage(d, BundleFile, f.keepBundle);
    first + Unstage(After(d, first), SignatureFile, f.keepSig)
  }

  // ----- one poll -----

  datatype Fetch = FetchFailed | NotModified | Fetched(bundle: Bytes, sig: Bytes, etag: string)

  /** What the process holds in memory: the published table, the updater's two memories of the last
      bundle, and the host list of the outbound-rule generator. A hash of 0 means "none". */
  datatype Memory = Memory(live: Option<Router.Table>, lastETag: string, lastHash: int, hosts: seq<string>)

  function LiveVersion(m: Memory): string {
    if m.live.None? then "" else m.live.value.bundleVersion
  }

  function LoadStaged(w: World, d: Disk, previous: string, unreadable: bool): Option<Loaded> {
    if unreadable || Path(BundleFile, Staged) !in d || Path(SignatureFile, Staged) !in d then None
    else Load(w, d[Path(BundleFile, Staged)], d[Path(SignatureFile, Staged)], previous)
  }

  datatype Result = Result(states: seq<Disk>, mem: Memory, ok: bool)

  function Published(w: World, l: Loaded, bundle: Bytes, etag: string): Memory {
    Memory(Some(l.table), etag, w.hash(bundle), Ordering.SortedSet(Profile.EnabledHosts(l.bundle.brokers)))
  }

  function Install(w: World, d: Disk, m: Memory, bundle: Bytes, sig: Bytes, etag: string, f: Faults): Result {
    var staged := StageBoth(d, bundle, sig, f);
    if !staged.ok then Result(staged.states, m, false)
    else
      var d1 := After(d, staged.states);
      var loaded := LoadStaged(w, d1, LiveVersion(m), f.unreadable);
      if loaded.None? then Result(staged.states + UnstageBoth(d1, f), m, false)
      else
        var promoted := PromoteBoth(d1, f.promoteBundle, f.promoteSig);
        Result(staged.states + promoted.states,
               if promoted.ok then Published(w, loaded.value, bundle, etag) else m,
               promoted.ok)
  }

  function TickRun(w: World, d: Disk, m: Memory, fetch: Fetch, f: Faults): Result {
    match fetch
    case FetchFailed => Result([], m, false)
    case NotModified => Result([], m, true)
    case Fetched(bundle, sig, etag) =>
      if bundle == [] || sig == [] then Result([], m, false)
      else if w.hash(bundle) == m.lastHash then Result([], m.(lastETag := etag), true)
      else Install(w, d, m, bundle, sig, etag, f)
  }

  // ----- the updater -----

  class Updater {
    const w: World
    const volume: Volume<Path>
    var live: Option<Router.Table>
    var lastETag: string
    var lastHash: int
    var hosts: seq<string>

    constructor (w: World, volume: Volume<Path>, live: Option<Router.Table>, hosts: seq<string>)
      ensures this.w == w && this.volume == volume
      ensures Snapshot() == Memory(live, "", 0, hosts)
    {
      this.w, this.volume, this.live, this.hosts := w, volume, live, hosts;
      lastETag, lastHash := "", 0;
    }

    function Snapshot(): Memory
      reads this
    {
      Memory(live, lastETag, lastHash, hosts)
    }

    method Stage(bundle: Bytes, sig: Bytes, f: Faults) returns (ok: bool)
      modifies volume
      ensures var o := StageBoth(old(volume.files), bundle, sig, f);
              ok == o.ok && volume.trace == old(volume.trace) + o.states && volume.files == After(old(volume.files), o.states)
    {
      hide WriteRun;
      var first := volume.WriteAtomic(Path(BundleFile, Staged), Path(BundleFile, Temp), bundle, f.stageBundle);
      if !first {
        return false;
      }
      ok := volume.WriteAtomic(Path(SignatureFile, Staged), Path(SignatureFile, Temp), sig, f.stageSig);
      if !ok {
        volume.Remove(Path(BundleFile, Staged), f.keepBundle);
      }
    }

    method Discard(f: Faults)
      modifies volume
      ensures volume.trace == old(volume.trace) + UnstageBoth(old(volume.files), f)
      ensures volume.files == After(old(volume.files), UnstageBoth(old(volume.files), f))
    {
      volume.Remove(Path(BundleFile, Staged), f.keepBundle);
      volume.Remove(Path(SignatureFile, Staged), f.keepSig);
    }

    method PromotePair(f: Faults) returns (ok: bool)
      modifies volume
      ensures var o := PromoteBoth(old(volume.files), f.promoteBundle, f.promoteSig);
              ok == o.ok && volume.trace == old(volume.trace) + o.states && volume.files == After(old(volume.files), o.states)
    {
      hide PromoteRun;
      ok := volume.Promote(Path(BundleFile, Current), Path(BundleFile, Previous), Path(BundleFile, Staged), f.promoteBundle);
      if !ok {
        return;
      }
      ok := volume.Promote(Path(SignatureFile, Current), Path(SignatureFile, Previous), Path(SignatureFile, Staged), f.promoteSig);
    }

    method LoadFromStaged(f: Faults) returns (loaded: Option<Loaded>)
      ensures loaded == LoadStaged(w, volume.files, LiveVersion(Snapshot()), f.unreadable)
    {
      var prevVersion := if live.None? then "" else live.value.bundleVersion;
      if f.unreadable || Path(BundleFile, Staged) !in volume.files || Path(SignatureFile, Staged) !in volume.files {
        return None;
      }
      loaded := LoadAndVerify(w, volume.files[Path(BundleFile, Staged)], volume.files[Path(SignatureFile, Staged)], prevVersion);
    }

    /** The part of a poll after the short cuts. */
    method InstallFetched(bundle: Bytes, sig: Bytes, etag: string, f: Faults) returns (ok: bool)
      modifies this, volume
      ensures var r := Install(w, old(volume.files), old(Snapshot()), bundle, sig, etag, f);
              && ok == r.ok && Snapshot() == r.mem
              && volume.trace == old(volume.trace) + r.states && volume.files == After(old(volume.files), r.states)
    {
      hide StageBoth, UnstageBoth, PromoteBoth, LoadStaged, Ordering.SortedSet, Profile.EnabledHosts;
      ok := Stage(bundle, sig, f);
      if !ok {
        return;
      }
      var loaded := LoadFromStaged(f);
      if loaded.None? {
        Discard(f);
        return false;
      }
      ok := PromotePair(f);
      if !ok {
        return;
      }
      live := Some(loaded.value.table);
      lastHash := w.hash(bundle);
      lastETag := etag;
      var names := Profile.CollectEnabledHosts(loaded.value.bundle);
      hosts := Ordering.DedupSorted(names);
    }

    method Tick(fetch: Fetch, f: Faults) returns (ok: bool)
      modifies this, volume
      ensures var r := TickRun(w, old(volume.files), old(Snapshot()), fetch, f);
              && ok == r.ok && Snapshot() == r.mem
              && volume.trace == old(volume.trace) + r.states && volume.files == After(old(volume.files), r.states)
    {
      hide Install;
      if fetch.FetchFailed? {
        return false;
      }
      if fetch.NotModified? {
        return true;
      }
      if fetch.bundle == [] || fetch.sig == [] {
        return false;
      }
      var hash := w.hash(fetch.bundle);
      if hash == lastHash {
        lastETag := fetch.etag;
        return true;
      }
      ok := InstallFetched(fetch.bundle, fetch.sig, fetch.etag, f);
    }
  }

  // ----- the start of the process -----

  /** What the current files load as, with no previous version. */
  function LoadCurrent(w: World, d: Disk): Option<Loaded> {
    if Path(BundleFile, Current) !in d || Path(SignatureFile, Current) !in d then None
    else Load(w, d[Path(BundleFile, Current)], d[Path(SignatureFile, Current)], "")
  }

  /** What a process holds that has started with this bundle. */
  function Booted(l: Loaded): Memory {
    Memory(Some(l.table), "", 0, Ordering.SortedSet(Profile.EnabledHosts(l.bundle.brokers)))
  }

  /** null stands for a start that fails. */
  method Boot(w: World, volume: Volume<Path>) returns (u: Updater?)
    ensures u == null <==> LoadCurrent(w, volume.files).None?
    ensures u != null ==> fresh(u) && u.w == w && u.volume == volume
                          && u.Snapshot() == Booted(LoadCurrent(w, volume.files).value)
  {
    hide Load, Ordering.SortedSet, Profile.EnabledHosts;
    if Path(BundleFile, Current) !in volume.files || Path(SignatureFile, Current) !in volume.files {
      return null;
    }
    var loaded := LoadAndVerify(w, volume.files[Path(BundleFile, Current)], volume.files[Path(SignatureFile, Current)], "");
    if loaded.None? {
      return null;
    }
    var names := Profile.CollectEnabledHosts(loaded.value.bundle);
    var hosts := Ordering.DedupSorted(names);
    u := new Updater(w, volume, Some(loaded.value.table), hosts);
  }

  // ----- the offline rollback -----

  datatype RollbackFault = NoRollbackFault | BundleRenameFails | SigRenameFails

  function RollbackRun(d: Disk, fault: RollbackFault): Outcome<Path> {
    var bundle, sig := Path(BundleFile, Previous), Path(SignatureFile, Previous);
    if bundle !in d || fault.BundleRenameFails? then Outcome([], false)
    else
      var d1 := Moved(d, bundle, Path(BundleFile, Current));
      if sig !in d1 || fault.SigRenameFails? then Outcome([d1], false)
      else Outcome([d1, Moved(d1, sig, Path(SignatureFile, Current))], true)
  }

  method RollbackBundle(volume: Volume<Path>, fault: RollbackFault) returns (ok: bool)
    modifies volume
    ensures var o := RollbackRun(old(volume.files), fault);
            ok == o.ok && volume.trace == old(volume.trace) + o.states && volume.files == After(old(volume.files), o.states)
  {
    if Path(BundleFile, Previous) !in volume.files {
      return false;
    }
    ok := volume.Rename(Path(BundleFile, Previous), Path(BundleFile, Current), fault.BundleRenameFails?);
    if !ok {
      return;
    }
    ok := volume.Rename(Path(SignatureFile, Previous), Path(SignatureFile, Current), fault.SigRenameFails?);
  }
}
