/** Loading a bundle: signature, rules, version gates, route table
    (tesseract-proxy/internal/profile/load.go). */
module BundleLoad {
  import opened Options
  import opened Files
  import Profile
  import Router
  import Ordering
  import SemVer

  /** The parts of the world the loader calls into: signature check under the pinned key, YAML
      decoder, SHA-256, library string tests; and the version of the running binary. */
  datatype World = World(lib: Profile.Library,
                         verify: (Bytes, Bytes) -> bool,
                         decode: Bytes -> Option<Profile.Bundle>,
                         hash: Bytes -> int,
                         binaryVersion: string)

  datatype Loaded = Loaded(bundle: Profile.Bundle, table: Router.Table)

  /** The running binary is new enough: no gate for "" and "dev". */
  predicate BinaryGate(binaryVersion: string, minVersion: string) {
    || binaryVersion == "" || binaryVersion == "dev"
    || (SemVer.Semver(binaryVersion).Some? && SemVer.Semver(minVersion).Some?
        && SemVer.Compare(SemVer.Semver(binaryVersion).value, SemVer.Semver(minVersion).value) >= 0)
  }

  predicate MonotonicGate(previous: string, version: string) {
    previous == "" || Ordering.Less(previous, version)
  }

  function Load(w: World, bundle: Bytes, sig: Bytes, previous: string): Option<Loaded> {
    if sig == [] || !w.verify(bundle, sig) then None
    else
      var b :- w.decode(bundle);
      if !Profile.ValidBundle(w.lib, b) || !BinaryGate(w.binaryVersion, b.minProxyVersion)
         || !MonotonicGate(previous, b.bundleVersion) then None
      else
        var t :- Router.TableOf(b);
        Some(Loaded(b, t))
  }

  method EnforceVersionGates(b: Profile.Bundle, binaryVersion: string, previous: string) returns (ok: bool)
    ensures ok == (BinaryGate(binaryVersion, b.minProxyVersion) && MonotonicGate(previous, b.bundleVersion))
  {
    if binaryVersion != "" && binaryVersion != "dev" {
      var cmp := SemVer.CompareSemver(binaryVersion, b.minProxyVersion);
      if cmp.None? || cmp.value < 0 {
        return false;
      }
    }
    if previous != "" {
      Ordering.LessTotal(b.bundleVersion, previous);
      if Ordering.Less(b.bundleVersion, previous) || b.bundleVersion == previous {
        return false;
      }
    }
    return true;
  }

  method LoadAndVerify(w: World, bundle: Bytes, sig: Bytes, previous: string) returns (r: Option<Loaded>)
    ensures r == Load(w, bundle, sig, previous)
  {
    hide Profile.ValidBundle, BinaryGate, MonotonicGate, Router.TableOf;
    if sig == [] || !w.verify(bundle, sig) {
      return None;
    }
    var decoded := w.decode(bundle);
    if decoded.None? {
      return None;
    }
    var b := decoded.value;
    var valid := Profile.Validate(w.lib, b);
    if !valid {
      return None;
    }
    var gates := EnforceVersionGates(b, w.binaryVersion, previous);
    if !gates {
      return None;
    }
    var t := Router.BuildRouter(b);
    if t.None? {
      return None;
    }
    return Some(Loaded(b, t.value));
  }

  /** Acceptance in full: a pair loads exactly when it is signed, decodes to a valid bundle, and
      passes both gates; building the table never refuses it. */
  lemma LoadsExactly(w: World, bundle: Bytes, sig: Bytes, previous: string)
    ensures Load(w, bundle, sig, previous).Some? <==>
            && sig != [] && w.verify(bundle, sig)
            && w.decode(bundle).Some?
            && var b := w.decode(bundle).value;
               Profile.ValidBundle(w.lib, b) && BinaryGate(w.binaryVersion, b.minProxyVersion)
               && MonotonicGate(previous, b.bundleVersion)
  {
    var d := w.decode(bundle);
    if d.Some? && Profile.ValidBundle(w.lib, d.value) {
      Router.ValidBuilds(w.lib, d.value);
    }
    hide Profile.ValidBundle, BinaryGate, MonotonicGate, Router.TableOf;
  }

  /** The gate on the numbers: a development or unversioned binary passes; another passes exactly when both
      versions parse and its three numbers are equal to the minimum or greater at the first that differs. */
  lemma BinaryGateMeaning(binaryVersion: string, minVersion: string)
    ensures BinaryGate(binaryVersion, minVersion) <==>
            || binaryVersion == "" || binaryVersion == "dev"
            || (exists x: seq<nat>, m: seq<nat> ::
                  && SemVer.Semver(binaryVersion) == Some(x) && SemVer.Semver(minVersion) == Some(m)
                  && |x| == |m| && (x == m || SemVer.Precedes(m, x)))
  {
    hide SemVer.Semver, SemVer.Compare, SemVer.Precedes;
    if SemVer.Semver(binaryVersion).Some? && SemVer.Semver(minVersion).Some? {
      var x, m := SemVer.Semver(binaryVersion).value, SemVer.Semver(minVersion).value;
      SemVer.CompareTotal(x, m);
      SemVer.CompareIsLexicographic(m, x);
    }
  }

  /** A newer binary passes whatever an older one passes. */
  lemma BinaryGateMonotone(older: string, newer: string, minVersion: string)
    requires SemVer.Semver(older).Some? && SemVer.Semver(newer).Some?
    requires SemVer.Compare(SemVer.Semver(older).value, SemVer.Semver(newer).value) <= 0
    requires older != "dev" && older != "" && BinaryGate(older, minVersion)
    ensures BinaryGate(newer, minVersion)
  {
    hide SemVer.Semver, SemVer.Compare;
    var x, y, m := SemVer.Semver(older).value, SemVer.Semver(newer).value, SemVer.Semver(minVersion).value;
    SemVer.CompareTotal(m, x);
    SemVer.CompareTransitive(m, x, y);
    SemVer.CompareTotal(m, y);
  }

  /** The first load of a process has no previous version; it accepts whatever any later load accepts. */
  lemma BootAcceptsMore(w: World, bundle: Bytes, sig: Bytes, previous: string)
    requires Load(w, bundle, sig, previous).Some?
    ensures Load(w, bundle, sig, "") == Load(w, bundle, sig, previous)
  {
    hide Profile.ValidBundle, BinaryGate, Router.TableOf;
  }
}
