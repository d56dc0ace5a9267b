/** The route table and its lookup (tesseract-proxy/internal/profile/router.go). */
module Router {
  import opened Options
  import opened PathTemplate
  import opened Profile

  datatype Route = Route(verb: string, template: string, re: seq<Token>, endpoint: Endpoint)
  datatype BrokerRoutes = BrokerRoutes(profile: Broker, routes: seq<Route>)
  datatype Table = Table(bundleVersion: string, byBroker: map<string, BrokerRoutes>)
  datatype Match = Match(broker: Broker, endpoint: Endpoint)

  // ----- building the table -----

  predicate Compiles(b: Broker) {
    forall j :: 0 <= j < |b.endpoints| ==> Compiled(b.endpoints[j].path).Some?
  }

  function RoutesOf(b: Broker): (rs: seq<Route>)
    requires Compiles(b)
    ensures |rs| == |b.endpoints|
  {
    seq(|b.endpoints|, j requires 0 <= j < |b.endpoints| =>
      Route(b.endpoints[j].verb, b.endpoints[j].path, Compiled(b.endpoints[j].path).value, b.endpoints[j]))
  }

  /** Later brokers replace earlier ones with the same id. */
  function ByBroker(brokers: seq<Broker>): map<string, BrokerRoutes>
    requires forall i :: 0 <= i < |brokers| ==> Compiles(brokers[i])
  {
    if brokers == [] then map[]
    else
      var last := brokers[|brokers| - 1];
      ByBroker(brokers[..|brokers| - 1])[last.id := BrokerRoutes(last, RoutesOf(last))]
  }

  function TableOf(b: Bundle): Option<Table> {
    if forall i :: 0 <= i < |b.brokers| ==> Compiles(b.brokers[i]) then
      Some(Table(b.bundleVersion, ByBroker(b.brokers)))
    else None
  }

  method BuildRoutes(b: Broker) returns (r: Option<seq<Route>>)
    ensures r.Some? <==> Compiles(b)
    ensures r.Some? ==> r.value == RoutesOf(b)
  {
    var routes: seq<Route> := [];
    for j := 0 to |b.endpoints|
      invariant |routes| == j
      invariant forall k :: 0 <= k < j ==>
                  var e := b.endpoints[k];
                  Compiled(e.path).Some? && routes[k] == Route(e.verb, e.path, Compiled(e.path).value, e)
    {
      hide Compiled;
      var e := b.endpoints[j];
      var re := CompilePathTemplate(e.path);
      if re.None? {
        return None;
      }
      routes := routes + [Route(e.verb, e.path, re.value, e)];
    }
    return Some(routes);
  }

  method BuildRouter(b: Bundle) returns (r: Option<Table>)
    ensures r == TableOf(b)
  {
    var byBroker := map[];
    for i := 0 to |b.brokers|
      invariant forall k :: 0 <= k < i ==> Compiles(b.brokers[k])
      invariant byBroker == ByBroker(b.brokers[..i])
    {
      hide Compiles, RoutesOf;
      var routes := BuildRoutes(b.brokers[i]);
      if routes.None? {
        return None;
      }
      assert b.brokers[..i + 1][..i] == b.brokers[..i];
      byBroker := byBroker[b.brokers[i].id := BrokerRoutes(b.brokers[i], routes.value)];
    }
    assert b.brokers[..|b.brokers|] == b.brokers;
    return Some(Table(b.bundleVersion, byBroker));
  }

  // ----- lookup -----

  /** The index of the first route for the method whose expression matches. */
  function FirstRoute(routes: seq<Route>, verb: string, path: string): (k: nat)
    ensures k <= |routes|
    ensures k < |routes| ==> routes[k].verb == verb && Matches(routes[k].re, path)
    ensures forall j :: 0 <= j < k ==> !(routes[j].verb == verb && Matches(routes[j].re, path))
  {
    if routes == [] || (routes[0].verb == verb && Matches(routes[0].re, path)) then 0
    else 1 + FirstRoute(routes[1..], verb, path)
  }

  function LookupIn(t: Table, brokerID: string, verb: string, path: string): Option<Match> {
    if brokerID !in t.byBroker || !t.byBroker[brokerID].profile.enabled then None
    else
      var br := t.byBroker[brokerID];
      var k := FirstRoute(br.routes, verb, path);
      if k == |br.routes| then None else Some(Match(br.profile, br.routes[k].endpoint))
  }

  method Lookup(t: Table, brokerID: string, verb: string, path: string) returns (m: Option<Match>)
    ensures m == LookupIn(t, brokerID, verb, path)
  {
    if brokerID !in t.byBroker {
      return None;
    }
    var br := t.byBroker[brokerID];
    if !br.profile.enabled {
      return None;
    }
    for i := 0 to |br.routes|
      invariant forall j :: 0 <= j < i ==> !(br.routes[j].verb == verb && Matches(br.routes[j].re, path))
    {
      hide Matches;
      var rt := br.routes[i];
      if rt.verb == verb && Matches(rt.re, path) {
        assert FirstRoute(br.routes, verb, path) == i;
        return Some(Match(br.profile, rt.endpoint));
      }
    }
    return None;
  }

  // ----- what the allowlist allows -----

  /** Endpoint `j` of the broker allows the request, read segment by segment. */
  ghost predicate Allows(b: Broker, j: nat, verb: string, path: string) {
    && j < |b.endpoints|
    && b.endpoints[j].verb == verb
    && SegmentsMatch(Segments(b.endpoints[j].path), Segments(path))
  }

  /** The answer an enabled broker must give: its first allowing endpoint, or nothing. */
  ghost predicate BrokerAnswer(b: Broker, verb: string, path: string, m: Option<Match>) {
    match m
    case None => forall j: nat :: !Allows(b, j, verb, path)
    case Some(found) =>
      exists j: nat :: Allows(b, j, verb, path) && (forall k :: 0 <= k < j ==> !Allows(b, k, verb, path))
                  && found == Match(b, b.endpoints[j])
  }

  /** The answer to a request: that of the enabled broker with the id, or nothing. */
  ghost predicate RightAnswer(b: Bundle, id: string, verb: string, path: string, m: Option<Match>) {
    && (forall i :: 0 <= i < |b.brokers| && b.brokers[i].id == id ==>
          if b.brokers[i].enabled then BrokerAnswer(b.brokers[i], verb, path, m) else m == None)
    && ((forall i :: 0 <= i < |b.brokers| ==> b.brokers[i].id != id) ==> m == None)
  }

  lemma ValidCompiles(lib: Library, b: Broker)
    requires ValidBroker(lib, b)
    ensures Compiles(b)
  {
    hide KnownMethod, KnownKind, Compiled;
    forall j | 0 <= j < |b.endpoints| ensures Compiled(b.endpoints[j].path).Some? {
      assert ValidEndpoint(b.endpoints[j]);
      MatchesSegmentwise(b.endpoints[j].path, "");
    }
  }

  /** A validated bundle always builds: the compiler's error cannot occur. */
  lemma ValidBuilds(lib: Library, b: Bundle)
    requires ValidBundle(lib, b)
    ensures TableOf(b).Some?
  {
    hide ValidBroker, Compiles;
    forall i | 0 <= i < |b.brokers| ensures Compiles(b.brokers[i]) {
      ValidCompiles(lib, b.brokers[i]);
    }
  }

  ghost predicate UniqueIDs(brokers: seq<Broker>) {
    forall i, j :: 0 <= i < j < |brokers| ==> brokers[i].id != brokers[j].id
  }

  /** With distinct ids the map holds every broker under its id, and nothing else. */
  lemma {:induction false} ByBrokerHolds(brokers: seq<Broker>, id: string)
    requires forall i :: 0 <= i < |brokers| ==> Compiles(brokers[i])
    requires UniqueIDs(brokers)
    ensures id in ByBroker(brokers) <==> exists i :: 0 <= i < |brokers| && brokers[i].id == id
    ensures forall i :: 0 <= i < |brokers| && brokers[i].id == id ==>
              id in ByBroker(brokers) && ByBroker(brokers)[id] == BrokerRoutes(brokers[i], RoutesOf(brokers[i]))
  {
    hide Compiles, RoutesOf;
    if brokers != [] {
      var n := |brokers| - 1;
      ByBrokerHolds(brokers[..n], id);
      if id != brokers[n].id && id in ByBroker(brokers[..n]) {
        var i :| 0 <= i < n && brokers[..n][i].id == id;
        assert brokers[i].id == id;
      }
      assert brokers[n].id == id ==> id in ByBroker(brokers);
      forall i | 0 <= i < |brokers| && brokers[i].id == id
        ensures id in ByBroker(brokers) && ByBroker(brokers)[id] == BrokerRoutes(brokers[i], RoutesOf(brokers[i]))
      {
        if i < n {
          assert brokers[..n][i].id == id;
        }
      }
    }
  }

  /** The compiled route of a valid endpoint matches exactly what the endpoint allows. */
  lemma RouteAllows(lib: Library, b: Broker, j: nat, verb: string, path: string)
    requires ValidBroker(lib, b) && Compiles(b) && j < |b.endpoints|
    ensures RoutesOf(b)[j].verb == verb && Matches(RoutesOf(b)[j].re, path) <==> Allows(b, j, verb, path)
    ensures RoutesOf(b)[j].endpoint == b.endpoints[j] && RoutesOf(b)[j].template == b.endpoints[j].path
  {
    hide KnownMethod, KnownKind, Compiled, SegmentsMatch, Matches;
    assert ValidEndpoint(b.endpoints[j]);
    MatchesSegmentwise(b.endpoints[j].path, path);
  }

  lemma LookupInBroker(lib: Library, br: Broker, t: Table, verb: string, path: string)
    requires ValidBroker(lib, br) && Compiles(br) && br.enabled
    requires br.id in t.byBroker && t.byBroker[br.id] == BrokerRoutes(br, RoutesOf(br))
    ensures BrokerAnswer(br, verb, path, LookupIn(t, br.id, verb, path))
  {
    var routes := RoutesOf(br);
    forall j | 0 <= j < |routes|
      ensures routes[j].verb == verb && Matches(routes[j].re, path) <==> Allows(br, j, verb, path)
      ensures routes[j].endpoint == br.endpoints[j]
    {
      RouteAllows(lib, br, j, verb, path);
    }
    hide RoutesOf, Matches, SegmentsMatch, ValidBroker, Compiles;
    var k := FirstRoute(routes, verb, path);
    assert k < |routes| ==> Allows(br, k, verb, path);
  }

  /** After validation, a lookup answers exactly the first allowing endpoint of the one
      enabled broker with that id, and nothing if there is none. */
  lemma LookupIsFirstMatch(lib: Library, b: Bundle, t: Table, id: string, verb: string, path: string)
    requires ValidBundle(lib, b) && TableOf(b) == Some(t)
    ensures RightAnswer(b, id, verb, path, LookupIn(t, id, verb, path))
  {
    hide ValidBroker, Compiles, BrokerAnswer;
    ByBrokerHolds(b.brokers, id);
    forall i | 0 <= i < |b.brokers| && b.brokers[i].id == id && b.brokers[i].enabled
      ensures BrokerAnswer(b.brokers[i], verb, path, LookupIn(t, id, verb, path))
    {
      LookupInBroker(lib, b.brokers[i], t, verb, path);
    }
  }
}
