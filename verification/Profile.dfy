/** The broker bundle and the rules it must satisfy before any route is built from it
    (tesseract-proxy/internal/profile/profile.go, tesseract-proxy/internal/profile/validate.go). */
module Profile {
  import Text
  import PathTemplate
  import SemVer

  datatype Endpoint = Endpoint(verb: string, path: string, kind: string)

  datatype Broker = Broker(id: string, displayName: string, host: string, enabled: bool,
                           endpoints: seq<Endpoint>, perUserRPS: int, perUserBurst: int)

  /** `issuedAt` is 0 for the zero time. */
  datatype Bundle = Bundle(schemaVersion: int, bundleVersion: string, issuedAt: int, issuer: string,
                           minProxyVersion: string, brokers: seq<Broker>)

  /** Library tests that are not modelled: "blank after trimming" and "literal host name". */
  datatype Library = Library(blank: string -> bool, hostOk: string -> bool)

  const SCHEMA_VERSION := 1
  predicate KnownMethod(verb: string) {
    verb == "GET" || verb == "POST" || verb == "PUT" || verb == "PATCH" || verb == "DELETE"
  }

  predicate KnownKind(kind: string) {
    || kind == "place" || kind == "modify" || kind == "cancel"
    || kind == "place_multi" || kind == "modify_multi" || kind == "cancel_multi"
    || kind == "place_multileg" || kind == "exit" || kind == "exit_positions"
    || kind == "cancel_cover" || kind == "cancel_bracket"
  }

  predicate ValidEndpoint(e: Endpoint) {
    KnownMethod(e.verb) && KnownKind(e.kind) && PathTemplate.IsTemplate(e.path)
  }

  predicate IsBrokerID(id: string) {
    && 2 <= |id| <= 32
    && 'a' <= id[0] <= 'z'
    && forall k :: 0 <= k < |id| ==> 'a' <= id[k] <= 'z' || Text.IsDigit(id[k]) || id[k] == '_'
  }

  predicate ValidBroker(lib: Library, b: Broker) {
    && IsBrokerID(b.id)
    && !lib.blank(b.displayName)
    && lib.hostOk(b.host)
    && b.endpoints != []
    && (forall j :: 0 <= j < |b.endpoints| ==> ValidEndpoint(b.endpoints[j]))
    && (forall j, k :: 0 <= j < k < |b.endpoints| ==>
          !(b.endpoints[j].verb == b.endpoints[k].verb && b.endpoints[j].path == b.endpoints[k].path))
    && b.perUserRPS >= 0 && b.perUserBurst >= 0
  }

  predicate ValidBundle(lib: Library, b: Bundle) {
    && b.schemaVersion == SCHEMA_VERSION
    && !lib.blank(b.bundleVersion) && !lib.blank(b.issuer) && b.issuedAt != 0
    && !lib.blank(b.minProxyVersion) && SemVer.Semver(b.minProxyVersion).Some?
    && b.brokers != []
    && (forall i :: 0 <= i < |b.brokers| ==> ValidBroker(lib, b.brokers[i]))
    && (forall i, j :: 0 <= i < j < |b.brokers| ==> b.brokers[i].id != b.brokers[j].id)
  }

  /** The key under which the duplicate check files an endpoint. */
  function EndpointKey(e: Endpoint): string {
    e.verb + (" " + e.path)
  }

  /** Known methods contain no blank, so the key tells method and path apart. */
  lemma EndpointKeyInjective(d: Endpoint, e: Endpoint)
    requires KnownMethod(d.verb) && KnownMethod(e.verb)
    ensures EndpointKey(d) == EndpointKey(e) <==> d.verb == e.verb && d.path == e.path
  {
    KeyParts(d);
    KeyParts(e);
    hide EndpointKey, KnownMethod;
  }

  lemma KeyParts(e: Endpoint)
    requires KnownMethod(e.verb)
    ensures var key, k := EndpointKey(e), Text.IndexOf(EndpointKey(e), ' ');
            k < |key| && key[..k] == e.verb && key[k + 1..] == e.path
  {
    assert ' ' !in e.verb;
    Text.IndexOfAfter(EndpointKey(e), ' ', |e.verb|);
  }

  method ValidateEndpoint(e: Endpoint) returns (ok: bool)
    ensures ok == ValidEndpoint(e)
  {
    if !KnownMethod(e.verb) || !KnownKind(e.kind) {
      return false;
    }
    ok := PathTemplate.ValidatePath(e.path);
  }

  method ValidateBroker(lib: Library, b: Broker) returns (ok: bool)
    ensures ok == ValidBroker(lib, b)
  {
    if !IsBrokerID(b.id) || lib.blank(b.displayName) || !lib.hostOk(b.host) || b.endpoints == [] {
      return false;
    }
    var seen: set<string> := {};
    for i := 0 to |b.endpoints|
      invariant forall j :: 0 <= j < i ==> ValidEndpoint(b.endpoints[j])
      invariant seen == set j | 0 <= j < i :: EndpointKey(b.endpoints[j])
      invariant forall j, k :: 0 <= j < k < i ==>
                  !(b.endpoints[j].verb == b.endpoints[k].verb && b.endpoints[j].path == b.endpoints[k].path)
    {
      hide EndpointKey, ValidEndpoint, KnownMethod;
      var e := b.endpoints[i];
      var good := ValidateEndpoint(e);
      if !good {
        return false;
      }
      KnownVerbs(b.endpoints[..i + 1]);
      forall j | 0 <= j < i
        ensures EndpointKey(b.endpoints[j]) == EndpointKey(e)
                <==> b.endpoints[j].verb == e.verb && b.endpoints[j].path == e.path
      {
        assert KnownMethod(b.endpoints[..i + 1][j].verb) && KnownMethod(b.endpoints[..i + 1][i].verb);
        EndpointKeyInjective(b.endpoints[j], e);
      }
      var key := EndpointKey(e);
      if key in seen {
        return false;
      }
      seen := seen + {key};
    }
    return b.perUserRPS >= 0 && b.perUserBurst >= 0;
  }

  lemma KnownVerbs(es: seq<Endpoint>)
    requires forall j :: 0 <= j < |es| ==> ValidEndpoint(es[j])
    ensures forall j :: 0 <= j < |es| ==> KnownMethod(es[j].verb)
  {
  }

  method Validate(lib: Library, b: Bundle) returns (ok: bool)
    ensures ok == ValidBundle(lib, b)
  {
    hide ValidBroker, SemVer.Semver;
    if b.schemaVersion != SCHEMA_VERSION || lib.blank(b.bundleVersion) || lib.blank(b.issuer)
       || b.issuedAt == 0 || lib.blank(b.minProxyVersion) {
      return false;
    }
    var minVersion := SemVer.ParseSemver(b.minProxyVersion);
    if minVersion.None? || b.brokers == [] {
      return false;
    }
    var seenID: set<string> := {};
    for i := 0 to |b.brokers|
      invariant forall j :: 0 <= j < i ==> ValidBroker(lib, b.brokers[j])
      invariant seenID == set j | 0 <= j < i :: b.brokers[j].id
      invariant forall j, k :: 0 <= j < k < i ==> b.brokers[j].id != b.brokers[k].id
    {
      var good := ValidateBroker(lib, b.brokers[i]);
      if !good {
        return false;
      }
      if b.brokers[i].id in seenID {
        return false;
      }
      seenID := seenID + {b.brokers[i].id};
    }
    return true;
  }

  // ----- the published schema of a broker entry -----

  const SCHEMA_METHODS := {"GET", "POST", "PUT", "PATCH", "DELETE"}
  const SCHEMA_KINDS := {"place", "modify", "cancel", "place_multi", "modify_multi", "cancel_multi",
                         "place_multileg", "exit", "exit_positions", "cancel_cover", "cancel_bracket"}

  /** The pattern ^[a-z][a-z0-9_]{1,31}$. */
  predicate SchemaID(id: string) {
    && 1 <= |id| - 1 <= 31
    && id[0] in PathTemplate.LOWER
    && forall k :: 1 <= k < |id| ==> id[k] in PathTemplate.LOWER + PathTemplate.DIGITS + {'_'}
  }

  /** The proxy accepts exactly the identifiers, methods and kinds of the schema that brokers are written
      against. */
  lemma AcceptsSchemaEnums(b: Broker, e: Endpoint)
    ensures IsBrokerID(b.id) <==> SchemaID(b.id)
    ensures KnownMethod(e.verb) <==> e.verb in SCHEMA_METHODS
    ensures KnownKind(e.kind) <==> e.kind in SCHEMA_KINDS
    ensures ValidEndpoint(e) <==> e.verb in SCHEMA_METHODS && e.kind in SCHEMA_KINDS && PathTemplate.IsTemplate(e.path)
  {
    forall c ensures (c in PathTemplate.LOWER <==> 'a' <= c <= 'z') && (c in PathTemplate.DIGITS <==> Text.IsDigit(c)) {
      PathTemplate.ClassOf(c);
    }
    hide PathTemplate.LOWER, PathTemplate.DIGITS;
  }

  /** What the schema asks of a broker, as far as it is not left to the library tests. */
  predicate MeetsSchema(b: Broker) {
    && SchemaID(b.id)
    && |b.endpoints| >= 1
    && (forall j :: 0 <= j < |b.endpoints| ==> b.endpoints[j].verb in SCHEMA_METHODS && b.endpoints[j].kind in SCHEMA_KINDS)
    && b.perUserRPS >= 0 && b.perUserBurst >= 0
  }

  /** A broker is accepted exactly when it meets the schema and moreover has a display name, a literal host,
      templates for paths, and no method and path twice. */
  lemma AcceptsSchema(lib: Library, b: Broker)
    ensures ValidBroker(lib, b) <==>
            && MeetsSchema(b)
            && !lib.blank(b.displayName) && lib.hostOk(b.host)
            && (forall j :: 0 <= j < |b.endpoints| ==> PathTemplate.IsTemplate(b.endpoints[j].path))
            && (forall j, k :: 0 <= j < k < |b.endpoints| ==>
                  b.endpoints[j].verb != b.endpoints[k].verb || b.endpoints[j].path != b.endpoints[k].path)
  {
    forall e ensures ValidEndpoint(e) <==>
                     e.verb in SCHEMA_METHODS && e.kind in SCHEMA_KINDS && PathTemplate.IsTemplate(e.path) {
      AcceptsSchemaEnums(b, e);
    }
    assert IsBrokerID(b.id) <==> SchemaID(b.id) by {
      AcceptsSchemaEnums(b, Endpoint("", "", ""));
    }
    hide ValidEndpoint, SCHEMA_METHODS, SCHEMA_KINDS, PathTemplate.IsTemplate, IsBrokerID, SchemaID;
  }

  /** A bundle is accepted exactly when it is of schema version 1, has every header field, and holds brokers that
      meet the schema and the further rules, each under its own identifier. */
  lemma AcceptsBundle(lib: Library, b: Bundle)
    ensures ValidBundle(lib, b) <==>
            && b.schemaVersion == 1 && b.issuedAt != 0
            && !lib.blank(b.bundleVersion) && !lib.blank(b.issuer) && !lib.blank(b.minProxyVersion)
            && (exists n: seq<nat>, x, y, z :: |n| == 3 && SemVer.Spells(b.minProxyVersion, x, y, z, n))
            && |b.brokers| >= 1
            && (forall i :: 0 <= i < |b.brokers| ==> ValidBroker(lib, b.brokers[i]) && MeetsSchema(b.brokers[i]))
            && (forall i, j :: 0 <= i < j < |b.brokers| ==> b.brokers[i].id != b.brokers[j].id)
  {
    forall i | 0 <= i < |b.brokers| && ValidBroker(lib, b.brokers[i]) ensures MeetsSchema(b.brokers[i]) {
      AcceptsSchema(lib, b.brokers[i]);
    }
    MinimumParses(b.minProxyVersion);
    hide ValidBroker, MeetsSchema, SemVer.Semver, SemVer.Spells;
  }

  lemma MinimumParses(s: string)
    ensures SemVer.Semver(s).Some? <==> exists n: seq<nat>, x, y, z :: |n| == 3 && SemVer.Spells(s, x, y, z, n)
  {
    hide SemVer.Semver, SemVer.Spells;
    if SemVer.Semver(s).Some? {
      SemVer.SemverExact(s, SemVer.Semver(s).value);
    }
    if n: seq<nat>, x, y, z :| |n| == 3 && SemVer.Spells(s, x, y, z, n) {
      SemVer.SemverExact(s, n);
    }
  }

  // ----- hosts that may be dialled -----

  /** The hosts of the enabled brokers, in bundle order (tesseract-proxy/cmd/proxy/main.go, `enabledHosts`). */
  function EnabledHosts(brokers: seq<Broker>): seq<string> {
    if brokers == [] then []
    else
      var n := |brokers| - 1;
      EnabledHosts(brokers[..n]) + if brokers[n].enabled then [brokers[n].host] else []
  }

  method CollectEnabledHosts(b: Bundle) returns (out: seq<string>)
    ensures out == EnabledHosts(b.brokers)
  {
    out := [];
    for i := 0 to |b.brokers|
      invariant out == EnabledHosts(b.brokers[..i])
    {
      assert b.brokers[..i + 1][..i] == b.brokers[..i];
      if b.brokers[i].enabled {
        out := out + [b.brokers[i].host];
      }
    }
    assert b.brokers[..|b.brokers|] == b.brokers;
  }

  /** How many enabled brokers have the host. */
  function HostCount(brokers: seq<Broker>, h: string): nat {
    if brokers == [] then 0
    else HostCount(brokers[..|brokers| - 1], h)
         + (if brokers[|brokers| - 1].enabled && brokers[|brokers| - 1].host == h then 1 else 0)
  }

  /** Every enabled broker contributes its host once, so a host shared by two is listed twice. */
  lemma {:induction false} EnabledHostsCount(brokers: seq<Broker>, h: string)
    ensures multiset(EnabledHosts(brokers))[h] == HostCount(brokers, h)
  {
    if brokers != [] {
      EnabledHostsCount(brokers[..|brokers| - 1], h);
    }
  }

  lemma {:induction false} EnabledHostsExact(brokers: seq<Broker>, h: string)
    ensures h in EnabledHosts(brokers) <==> exists i :: 0 <= i < |brokers| && brokers[i].enabled && brokers[i].host == h
  {
    if brokers != [] {
      var n := |brokers| - 1;
      EnabledHostsExact(brokers[..n], h);
      if i :| 0 <= i < |brokers| && brokers[i].enabled && brokers[i].host == h {
        assert i < n ==> brokers[..n][i] == brokers[i];
      }
      if h in EnabledHosts(brokers[..n]) {
        var i :| 0 <= i < n && brokers[..n][i].enabled && brokers[..n][i].host == h;
        assert brokers[i].enabled;
      }
      assert brokers[n].enabled && brokers[n].host == h ==> h in EnabledHosts(brokers);
    }
  }
}
