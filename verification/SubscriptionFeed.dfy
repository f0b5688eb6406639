// The subscription feed: for each pool, in the order of selection, the first nodes with
// a renderable route, one URI a line, within a budget of routes and bytes.
module SubscriptionFeed {
  import opened Basics
  import opened PercentEncoding
  import A = AccessState
  import D = DataPlaneCredential
  import N = RouteNames
  import U = VlessUri
  import V = VlessTcpTls

  const MAX_FEED_BYTES := 16384

  datatype ProtocolKind = Vless | Wireguard

  datatype TransportKind = Tcp | Websocket | Grpc

  datatype SecurityKind = NoSecurity | Tls | Reality

  datatype SelectedRoute = SelectedRoute(
    nodeId: Id,
    grantId: Id,
    poolId: Id,
    poolCandidateLimit: nat,
    protocolKind: ProtocolKind,
    transportKind: TransportKind,
    securityKind: SecurityKind,
    compatibleWithHapp: bool,
    tlsServerName: Option<Text>,
    displayName: Option<Text>,
    host: Text,
    addressKind: V.AddressKind,
    port: int,
    credentialHash: Text,
    derivationVersion: Option<nat>)

  // What the feed is rendered with: the keyed derivation and its verifier, and the
  // library's test for addresses.
  datatype Renderer = Renderer(
    deviceId: Id, derive: A.CredentialBinding -> Text, verifies: (Text, Text) -> bool, isIP: Text -> int)

  predicate Present(t: Option<Text>) {
    t.Some? && t.value != []
  }

  function Credential(route: SelectedRoute, r: Renderer): Text {
    r.derive(A.CredentialBinding(route.grantId, r.deviceId, route.nodeId))
  }

  predicate Supported(route: SelectedRoute, r: Renderer) {
    && route.protocolKind.Vless?
    && route.transportKind.Tcp?
    && route.securityKind.Tls?
    && route.compatibleWithHapp
    && Present(route.tlsServerName)
    && Present(route.displayName)
    && route.derivationVersion == Some(A.DATA_PLANE_CREDENTIAL_DERIVATION_VERSION)
    && r.verifies(Credential(route, r), route.credentialHash)
  }

  // Credentials are derived as DataPlaneCredential lays them out, from some keyed hash of the binding.
  ghost predicate DerivesFrom(r: Renderer, mac: A.CredentialBinding -> seq<bv8>) {
    forall b :: |mac(b)| == 32 && r.derive(b) == D.Grouped(D.Hex(D.Stamped(mac(b)[..16])))
  }

  function AsRoute(route: SelectedRoute, r: Renderer): V.Route
    requires Supported(route, r)
  {
    V.Route(route.host, route.addressKind, route.port, Credential(route, r), route.tlsServerName.value,
            route.displayName.value)
  }

  // Whatever the hash, a derived credential never keeps a route from being rendered: only its port,
  // its names and its address can.
  lemma DerivedNeverRefused(route: SelectedRoute, r: Renderer, mac: A.CredentialBinding -> seq<bv8>)
    requires DerivesFrom(r, mac) && Supported(route, r)
    ensures V.IsRenderable(AsRoute(route, r), r.isIP) <==>
              && 1 <= route.port <= 65535
              && V.IsValidVlessDisplayName(route.displayName.value)
              && V.IsValidTlsServerName(route.tlsServerName.value)
              && (route.addressKind.Ipv6? ==> r.isIP(route.host) == 6)
              && (route.addressKind.Ipv4? ==> r.isIP(route.host) == 4)
              && (route.addressKind.Hostname? ==> V.IsValidTlsServerName(route.host))
  {
    hide V.IsValidVlessDisplayName, V.IsValidTlsServerName, D.CredentialShape, D.Grouped, D.Hex, D.Stamped;
    D.DerivedHasShape(mac(A.CredentialBinding(route.grantId, r.deviceId, route.nodeId))[..16]);
  }

  function Rendered(route: SelectedRoute, r: Renderer): V.Rendering {
    if Supported(route, r) then V.RenderVlessTcpTls(AsRoute(route, r), r.isIP) else V.NotRenderable
  }

  predicate Renderable(route: SelectedRoute, r: Renderer) {
    Rendered(route, r).Uri?
  }

  // What the feed can offer: VLESS over TCP with TLS, for the client, with the credential that the grant
  // was stored with, proper names, a port and an address of its kind.
  ghost predicate CanOffer(route: SelectedRoute, r: Renderer) {
    && route.protocolKind == Vless && route.transportKind == Tcp && route.securityKind == Tls
    && route.compatibleWithHapp
    && route.derivationVersion == Some(A.DATA_PLANE_CREDENTIAL_DERIVATION_VERSION)
    && HasCredential(route, r)
    && (exists name :: route.tlsServerName == Some(name) && N.IsHostName(name))
    && (exists name :: route.displayName == Some(name) && N.IsDisplayName(name))
    && 0 < route.port < 65536
    && HasAddress(route, r.isIP)
  }

  ghost predicate HasCredential(route: SelectedRoute, r: Renderer) {
    var credential := r.derive(A.CredentialBinding(route.grantId, r.deviceId, route.nodeId));
    D.CredentialShape(credential) && r.verifies(credential, route.credentialHash)
  }

  ghost predicate HasAddress(route: SelectedRoute, isIP: Text -> int) {
    match route.addressKind
    case Hostname => N.IsHostName(route.host)
    case Ipv4 => isIP(route.host) == 4
    case Ipv6 => isIP(route.host) == 6
  }

  // A route is rendered exactly when the feed can offer it.
  lemma RenderableExactly(route: SelectedRoute, r: Renderer)
    ensures Renderable(route, r) <==> CanOffer(route, r)
  {
    hide D.CredentialShape, V.IsValidTlsServerName, V.IsValidVlessDisplayName, N.IsHostName, N.IsDisplayName,
         WellFormed, EncodeURIComponent;
    N.HostNameExactly(route.host);
    if route.tlsServerName.Some? && route.displayName.Some? {
      N.HostNameExactly(route.tlsServerName.value);
      N.DisplayNameExactly(route.displayName.value);
      EncodingRoundTrips(route.displayName.value);
      NamesAreNotEmpty(route.tlsServerName.value, route.displayName.value);
    }
  }

  lemma NamesAreNotEmpty(server: Text, name: Text)
    ensures V.IsValidTlsServerName(server) ==> server != []
    ensures V.IsValidVlessDisplayName(name) ==> name != []
  {
  }

  // ---------- which routes belong in the feed ----------

  // The first renderable route of its node.
  predicate FirstOfNode(routes: seq<SelectedRoute>, i: nat, r: Renderer)
    requires i < |routes|
  {
    && Renderable(routes[i], r)
    && forall j | 0 <= j < i && Renderable(routes[j], r) :: routes[j].nodeId != routes[i].nodeId
  }

  // How many nodes of a pool have a renderable route among the first n.
  function NodesBefore(routes: seq<SelectedRoute>, n: nat, poolId: Id, r: Renderer): nat
    requires n <= |routes|
  {
    if n == 0 then 0
    else NodesBefore(routes, n - 1, poolId, r)
         + if FirstOfNode(routes, n - 1, r) && routes[n - 1].poolId == poolId then 1 else 0
  }

  // Among the first of its pool to be served.
  predicate Chosen(routes: seq<SelectedRoute>, i: nat, r: Renderer)
    requires i < |routes|
  {
    FirstOfNode(routes, i, r) && NodesBefore(routes, i, routes[i].poolId, r) < routes[i].poolCandidateLimit
  }

  // The URIs of the chosen routes among the first n, in order.
  function ChosenUris(routes: seq<SelectedRoute>, n: nat, r: Renderer): seq<Text>
    requires n <= |routes|
  {
    if n == 0 then []
    else ChosenUris(routes, n - 1, r) + if Chosen(routes, n - 1, r) then [Rendered(routes[n - 1], r).text] else []
  }

  function ChosenNames(routes: seq<SelectedRoute>, n: nat, r: Renderer): seq<Text>
    requires n <= |routes|
  {
    if n == 0 then []
    else ChosenNames(routes, n - 1, r)
         + if Chosen(routes, n - 1, r) then [routes[n - 1].displayName.value] else []
  }

  // A node belongs to one pool, and a pool has one limit.
  ghost predicate OnePoolPerNode(routes: seq<SelectedRoute>) {
    && (forall i, j | 0 <= i < |routes| && 0 <= j < |routes| && routes[i].nodeId == routes[j].nodeId ::
          routes[i].poolId == routes[j].poolId)
    && (forall i, j | 0 <= i < |routes| && 0 <= j < |routes| && routes[i].poolId == routes[j].poolId ::
          routes[i].poolCandidateLimit == routes[j].poolCandidateLimit)
  }

  // Derivation gives different credentials for different bindings.
  ghost predicate Injective(derive: A.CredentialBinding -> Text) {
    forall a, b | derive(a) == derive(b) :: a == b
  }

  // ---------- the length of a feed ----------

  // The bytes of a text in UTF-8; half a surrogate pair counts as a replacement character.
  function ByteLength(t: Text): nat {
    if t == [] then 0
    else if t[0] < 0x80 then 1 + ByteLength(t[1..])
    else if t[0] < 0x800 then 2 + ByteLength(t[1..])
    else if IsHighSurrogate(t[0]) && |t| >= 2 && IsLowSurrogate(t[1]) then 4 + ByteLength(t[2..])
    else 3 + ByteLength(t[1..])
  }

  predicate IsAscii(t: Text) {
    forall u | u in t :: u < 0x80
  }

  lemma {:induction false} AsciiByteLength(t: Text)
    requires IsAscii(t)
    ensures ByteLength(t) == |t|
  {
    if t != [] {
      assert t[0] in t;
      assert forall u | u in t[1..] :: u in t;
      AsciiByteLength(t[1..]);
    }
  }

  lemma {:induction false} JoinedAscii(lines: seq<Text>)
    requires forall l | l in lines :: IsAscii(l)
    ensures IsAscii(V.Join(lines))
  {
    if |lines| > 1 {
      assert forall l | l in lines[1..] :: l in lines;
      JoinedAscii(lines[1..]);
      assert lines[0] in lines;
    }
  }

  lemma {:induction false} JoinedLength(lines: seq<Text>, last: Text)
    ensures |V.Join(lines + [last])| == |V.Join(lines)| + (if lines == [] then 0 else 1) + |last|
  {
    if |lines| <= 1 {
      assert lines + [last] == if lines == [] then [last] else [lines[0], last];
    } else {
      assert (lines + [last])[1..] == lines[1..] + [last];
      JoinedLength(lines[1..], last);
    }
  }

  // ---------- what is rendered ----------

  lemma RenderedUri(route: SelectedRoute, r: Renderer)
    requires Renderable(route, r) && V.KnowsAddresses(r.isIP)
    ensures IsAscii(Rendered(route, r).text) && V.IsLine(Rendered(route, r).text)
    ensures V.LabelOf(Rendered(route, r).text) == Some(route.displayName.value)
    ensures Rendered(route, r).text != [] && ByteLength(Rendered(route, r).text) == |Rendered(route, r).text|
  {
    V.RenderedIsPlain(AsRoute(route, r), r.isIP);
    V.RenderedCarriesName(AsRoute(route, r), r.isIP);
    assert IsAscii(Rendered(route, r).text);
    AsciiByteLength(Rendered(route, r).text);
  }

  // A URI tells the credential it was rendered with.
  lemma UriTellsCredential(a: V.Route, b: V.Route, isIP: Text -> int)
    requires V.RenderVlessTcpTls(a, isIP).Uri? && V.RenderVlessTcpTls(b, isIP) == V.RenderVlessTcpTls(a, isIP)
    ensures a.credential == b.credential
  {
    var uri := V.RenderVlessTcpTls(a, isIP).text;
    var scheme := V.Ascii("vless://");
    assert uri[|scheme|..|scheme| + 36] == a.credential by {
      CredentialFollowsScheme(a, uri, EncodeURIComponent(a.displayName).text);
    }
    assert uri[|scheme|..|scheme| + 36] == b.credential by {
      CredentialFollowsScheme(b, uri, EncodeURIComponent(b.displayName).text);
    }
  }

  lemma CredentialFollowsScheme(route: V.Route, uri: Text, name: Text)
    requires 1 <= route.port && |route.credential| == 36 && uri == V.Prefix(route) + [V.HASH] + name
    ensures |V.Ascii("vless://")| + 36 <= |uri|
    ensures uri[|V.Ascii("vless://")|..|V.Ascii("vless://")| + 36] == route.credential
  {
    hide V.Ascii, V.Address, V.Parameters;
    var rest := V.Ascii("@") + V.Address(route) + V.Parameters(route) + [V.HASH] + name;
    assert uri == V.Ascii("vless://") + route.credential + rest;
  }

  lemma NodesHaveOwnUris(a: SelectedRoute, b: SelectedRoute, r: Renderer)
    requires Injective(r.derive) && Renderable(a, r) && Renderable(b, r) && Rendered(a, r) == Rendered(b, r)
    ensures a.nodeId == b.nodeId
  {
    UriTellsCredential(AsRoute(a, r), AsRoute(b, r), r.isIP);
  }

  // ---------- the loop ----------

  datatype Feed = Feed(text: Text) | Unavailable | Crashed

  // A pool's count stops at its limit.
  function Capped(count: nat, limit: nat): nat {
    if count < limit then count else limit
  }

  function CountIn(byPool: map<Id, nat>, poolId: Id): nat {
    if poolId in byPool then byPool[poolId] else 0
  }

  // The nodes rendered after n routes are those of the chosen ones, and so are the URIs.
  ghost predicate NodesAreChosen(routes: seq<SelectedRoute>, n: nat, r: Renderer, nodeIds: set<Id>)
    requires n <= |routes|
  {
    && (forall j | 0 <= j < n && Chosen(routes, j, r) :: routes[j].nodeId in nodeIds)
    && (forall id | id in nodeIds :: exists j :: 0 <= j < n && Chosen(routes, j, r) && routes[j].nodeId == id)
  }

  ghost predicate PoolsAreCounted(routes: seq<SelectedRoute>, n: nat, r: Renderer, byPool: map<Id, nat>)
    requires n <= |routes|
  {
    forall i | 0 <= i < |routes| ::
      CountIn(byPool, routes[i].poolId)
        == Capped(NodesBefore(routes, n, routes[i].poolId, r), routes[i].poolCandidateLimit)
  }

  lemma {:induction false} NodesBeforeGrows(routes: seq<SelectedRoute>, n: nat, m: nat, poolId: Id, r: Renderer)
    requires n <= m <= |routes|
    ensures NodesBefore(routes, n, poolId, r) <= NodesBefore(routes, m, poolId, r)
    decreases m
  {
    hide FirstOfNode;
    if n < m {
      NodesBeforeGrows(routes, n, m - 1, poolId, r);
    }
  }

  lemma {:induction false} FirstRenderable(routes: seq<SelectedRoute>, i: nat, r: Renderer) returns (first: nat)
    requires i < |routes| && Renderable(routes[i], r)
    ensures first <= i && FirstOfNode(routes, first, r) && routes[first].nodeId == routes[i].nodeId
    decreases i
  {
    if j :| 0 <= j < i && Renderable(routes[j], r) && routes[j].nodeId == routes[i].nodeId {
      first := FirstRenderable(routes, j, r);
    } else {
      first := i;
    }
  }

  // A renderable route of a node not yet rendered is chosen exactly when its pool has room.
  lemma ChosenWhenRoom(routes: seq<SelectedRoute>, i: nat, r: Renderer, nodeIds: set<Id>, byPool: map<Id, nat>)
    requires OnePoolPerNode(routes) && i < |routes|
    requires NodesAreChosen(routes, i, r, nodeIds) && PoolsAreCounted(routes, i, r, byPool)
    requires routes[i].nodeId !in nodeIds && Renderable(routes[i], r)
    ensures Chosen(routes, i, r) <==> CountIn(byPool, routes[i].poolId) < routes[i].poolCandidateLimit
  {
    hide Rendered, Supported;
    var first := FirstRenderable(routes, i, r);
    NodesBeforeGrows(routes, first, i, routes[i].poolId, r);
    var firstIsChosen := Chosen(routes, first, r);
    assert forall j | 0 <= j < i && Chosen(routes, j, r) :: routes[j].nodeId in nodeIds;
  }

  lemma NotChosenWhenServed(routes: seq<SelectedRoute>, i: nat, r: Renderer, nodeIds: set<Id>)
    requires i < |routes| && NodesAreChosen(routes, i, r, nodeIds) && routes[i].nodeId in nodeIds
    ensures !Chosen(routes, i, r)
  {
    hide Rendered, Supported;
  }

  lemma {:induction false} ChosenUrisExactly(routes: seq<SelectedRoute>, n: nat, r: Renderer, uri: Text)
    requires n <= |routes| && uri in ChosenUris(routes, n, r)
    ensures exists j :: 0 <= j < n && Chosen(routes, j, r) && Rendered(routes[j], r).text == uri
  {
    hide Rendered, Supported;
    if uri in ChosenUris(routes, n - 1, r) {
      ChosenUrisExactly(routes, n - 1, r, uri);
    }
  }

  // A URI already rendered belongs to a node already rendered.
  lemma RepeatedUriIsOfServedNode(routes: seq<SelectedRoute>, i: nat, r: Renderer, nodeIds: set<Id>)
    requires Injective(r.derive) && i < |routes| && NodesAreChosen(routes, i, r, nodeIds)
    requires Renderable(routes[i], r) && Rendered(routes[i], r).text in ChosenUris(routes, i, r)
    ensures routes[i].nodeId in nodeIds
  {
    hide Supported;
    ChosenUrisExactly(routes, i, r, Rendered(routes[i], r).text);
    var j :| 0 <= j < i && Chosen(routes, j, r) && Rendered(routes[j], r).text == Rendered(routes[i], r).text;
    NodesHaveOwnUris(routes[j], routes[i], r);
  }

  lemma CountsAfterSkipped(routes: seq<SelectedRoute>, i: nat, r: Renderer, nodeIds: set<Id>, byPool: map<Id, nat>)
    requires OnePoolPerNode(routes) && i < |routes| && !Chosen(routes, i, r)
    requires NodesAreChosen(routes, i, r, nodeIds) && PoolsAreCounted(routes, i, r, byPool)
    ensures NodesAreChosen(routes, i + 1, r, nodeIds) && PoolsAreCounted(routes, i + 1, r, byPool)
    ensures ChosenUris(routes, i + 1, r) == ChosenUris(routes, i, r)
  {
    hide Chosen, Rendered, PoolsAreCounted;
    PoolsAfterSkipped(routes, i, r, byPool);
    forall id | id in nodeIds ensures exists j :: 0 <= j < i + 1 && Chosen(routes, j, r) && routes[j].nodeId == id {
      ServedByEarlier(routes, i, r, nodeIds, id);
    }
  }

  lemma PoolsAfterSkipped(routes: seq<SelectedRoute>, i: nat, r: Renderer, byPool: map<Id, nat>)
    requires OnePoolPerNode(routes) && i < |routes| && !Chosen(routes, i, r) && PoolsAreCounted(routes, i, r, byPool)
    ensures PoolsAreCounted(routes, i + 1, r, byPool)
  {
    hide FirstOfNode;
  }

  lemma PoolsAfterChosen(routes: seq<SelectedRoute>, i: nat, r: Renderer, byPool: map<Id, nat>)
    requires OnePoolPerNode(routes) && i < |routes| && Chosen(routes, i, r) && PoolsAreCounted(routes, i, r, byPool)
    ensures PoolsAreCounted(routes, i + 1, r, byPool[routes[i].poolId := CountIn(byPool, routes[i].poolId) + 1])
  {
    hide FirstOfNode;
  }

  lemma ChosenIsRenderable(routes: seq<SelectedRoute>, i: nat, r: Renderer)
    requires i < |routes| && Chosen(routes, i, r)
    ensures Renderable(routes[i], r) && Rendered(routes[i], r).Uri? && routes[i].displayName.Some?
  {
  }

  lemma CountsAfterChosen(routes: seq<SelectedRoute>, i: nat, r: Renderer, nodeIds: set<Id>, byPool: map<Id, nat>)
    requires OnePoolPerNode(routes) && i < |routes| && Chosen(routes, i, r)
    requires NodesAreChosen(routes, i, r, nodeIds) && PoolsAreCounted(routes, i, r, byPool)
    ensures NodesAreChosen(routes, i + 1, r, nodeIds + {routes[i].nodeId})
    ensures PoolsAreCounted(routes, i + 1, r, byPool[routes[i].poolId := CountIn(byPool, routes[i].poolId) + 1])
  {
    hide Chosen, PoolsAreCounted;
    PoolsAfterChosen(routes, i, r, byPool);
    var more := nodeIds + {routes[i].nodeId};
    forall id | id in more ensures exists j :: 0 <= j < i + 1 && Chosen(routes, j, r) && routes[j].nodeId == id {
      if id == routes[i].nodeId {
        assert Chosen(routes, i, r);
      } else {
        var j :| 0 <= j < i && Chosen(routes, j, r) && routes[j].nodeId == id;
        assert 0 <= j < i + 1;
      }
    }
  }

  // What is chosen early stays chosen: the feed only grows.
  lemma {:induction false} ChosenUrisGrow(routes: seq<SelectedRoute>, n: nat, m: nat, r: Renderer)
    requires n <= m <= |routes|
    ensures |ChosenUris(routes, n, r)| <= |ChosenUris(routes, m, r)|
    ensures |V.Join(ChosenUris(routes, n, r))| <= |V.Join(ChosenUris(routes, m, r))|
    decreases m
  {
    hide Rendered, Supported, Chosen;
    if n < m {
      ChosenUrisGrow(routes, n, m - 1, r);
      if Chosen(routes, m - 1, r) {
        ChosenIsRenderable(routes, m - 1, r);
        JoinedLength(ChosenUris(routes, m - 1, r), Rendered(routes[m - 1], r).text);
      } else {
        assert ChosenUris(routes, m, r) == ChosenUris(routes, m - 1, r);
      }
    }
  }

  ghost predicate WithinBudget(uris: seq<Text>, maximumRoutes: nat) {
    1 <= |uris| <= maximumRoutes && |V.Join(uris)| <= MAX_FEED_BYTES
  }

  ghost predicate FitsSoFar(uris: seq<Text>, maximumRoutes: nat) {
    |uris| <= maximumRoutes && |V.Join(uris)| <= MAX_FEED_BYTES
  }

  // Rendering this route makes the feed fail: its node is not served by then, and no budget has run out.
  ghost predicate CrashesAt(routes: seq<SelectedRoute>, i: nat, r: Renderer, maximumRoutes: nat)
    requires i < |routes|
  {
    && Rendered(routes[i], r).Throws?
    && (forall j | 0 <= j < i && Chosen(routes, j, r) :: routes[j].nodeId != routes[i].nodeId)
    && FitsSoFar(ChosenUris(routes, i, r), maximumRoutes)
  }

  ghost predicate Crashes(routes: seq<SelectedRoute>, r: Renderer, maximumRoutes: nat) {
    exists i :: 0 <= i < |routes| && CrashesAt(routes, i, r, maximumRoutes)
  }

  // What the loop knows after n routes.
  ghost predicate SoFar(routes: seq<SelectedRoute>, n: nat, r: Renderer, maximumRoutes: nat,
                        rendered: seq<Text>, nodeIds: set<Id>, byPool: map<Id, nat>, feedBytes: nat)
    requires n <= |routes|
  {
    && rendered == ChosenUris(routes, n, r) && feedBytes == |V.Join(rendered)|
    && FitsSoFar(rendered, maximumRoutes)
    && NodesAreChosen(routes, n, r, nodeIds) && PoolsAreCounted(routes, n, r, byPool)
    && forall k | 0 <= k < n :: !CrashesAt(routes, k, r, maximumRoutes)
  }

  lemma ServedByEarlier(routes: seq<SelectedRoute>, n: nat, r: Renderer, nodeIds: set<Id>, id: Id)
    requires n <= |routes| && NodesAreChosen(routes, n, r, nodeIds) && id in nodeIds
    ensures exists j :: 0 <= j < n && Chosen(routes, j, r) && routes[j].nodeId == id
  {
    hide Chosen;
  }

  lemma SkipServed(routes: seq<SelectedRoute>, i: nat, r: Renderer, maximumRoutes: nat,
                   rendered: seq<Text>, nodeIds: set<Id>, byPool: map<Id, nat>, feedBytes: nat)
    requires OnePoolPerNode(routes) && i < |routes| && routes[i].nodeId in nodeIds
    requires SoFar(routes, i, r, maximumRoutes, rendered, nodeIds, byPool, feedBytes)
    ensures SoFar(routes, i + 1, r, maximumRoutes, rendered, nodeIds, byPool, feedBytes)
  {
    hide Chosen, Rendered, NodesAreChosen, PoolsAreCounted, V.Join;
    ServedByEarlier(routes, i, r, nodeIds, routes[i].nodeId);
    NotChosenWhenServed(routes, i, r, nodeIds);
    CountsAfterSkipped(routes, i, r, nodeIds, byPool);
  }

  lemma SkipNotRenderable(routes: seq<SelectedRoute>, i: nat, r: Renderer, maximumRoutes: nat,
                          rendered: seq<Text>, nodeIds: set<Id>, byPool: map<Id, nat>, feedBytes: nat)
    requires OnePoolPerNode(routes) && i < |routes| && Rendered(routes[i], r).NotRenderable?
    requires SoFar(routes, i, r, maximumRoutes, rendered, nodeIds, byPool, feedBytes)
    ensures SoFar(routes, i + 1, r, maximumRoutes, rendered, nodeIds, byPool, feedBytes)
  {
    hide Chosen, Rendered, NodesAreChosen, PoolsAreCounted, V.Join;
    NotRenderableNotChosen(routes, i, r);
    CountsAfterSkipped(routes, i, r, nodeIds, byPool);
  }

  lemma SkipRepeatedOrFull(routes: seq<SelectedRoute>, i: nat, r: Renderer, maximumRoutes: nat,
                           rendered: seq<Text>, nodeIds: set<Id>, byPool: map<Id, nat>, feedBytes: nat)
    requires OnePoolPerNode(routes) && Injective(r.derive) && i < |routes|
    requires routes[i].nodeId !in nodeIds && Renderable(routes[i], r)
    requires Rendered(routes[i], r).text in rendered
             || routes[i].poolCandidateLimit <= CountIn(byPool, routes[i].poolId)
    requires SoFar(routes, i, r, maximumRoutes, rendered, nodeIds, byPool, feedBytes)
    ensures SoFar(routes, i + 1, r, maximumRoutes, rendered, nodeIds, byPool, feedBytes)
  {
    hide Chosen, Rendered, NodesAreChosen, PoolsAreCounted, V.Join, Injective;
    if Rendered(routes[i], r).text in rendered {
      RepeatedUriIsOfServedNode(routes, i, r, nodeIds);
    }
    ChosenWhenRoom(routes, i, r, nodeIds, byPool);
    CountsAfterSkipped(routes, i, r, nodeIds, byPool);
  }

  // The next URI, whether or not it still fits.
  lemma NextUri(routes: seq<SelectedRoute>, i: nat, r: Renderer, maximumRoutes: nat,
                rendered: seq<Text>, nodeIds: set<Id>, byPool: map<Id, nat>, feedBytes: nat)
    requires OnePoolPerNode(routes) && V.KnowsAddresses(r.isIP) && i < |routes|
    requires routes[i].nodeId !in nodeIds && Renderable(routes[i], r)
    requires CountIn(byPool, routes[i].poolId) < routes[i].poolCandidateLimit
    requires SoFar(routes, i, r, maximumRoutes, rendered, nodeIds, byPool, feedBytes)
    ensures var uri := Rendered(routes[i], r).text;
            && Chosen(routes, i, r)
            && ChosenUris(routes, i + 1, r) == rendered + [uri]
            && |V.Join(rendered + [uri])| == feedBytes + (if |rendered| == 0 then 0 else 1) + ByteLength(uri)
  {
    hide Chosen, Rendered, NodesAreChosen, PoolsAreCounted, V.Join, ByteLength;
    ChosenWhenRoom(routes, i, r, nodeIds, byPool);
    RenderedUri(routes[i], r);
    JoinedLength(rendered, Rendered(routes[i], r).text);
  }

  lemma AddUri(routes: seq<SelectedRoute>, i: nat, r: Renderer, maximumRoutes: nat,
               rendered: seq<Text>, nodeIds: set<Id>, byPool: map<Id, nat>, feedBytes: nat, nextFeedBytes: nat)
    requires OnePoolPerNode(routes) && i < |routes| && Chosen(routes, i, r) && Renderable(routes[i], r)
    requires SoFar(routes, i, r, maximumRoutes, rendered, nodeIds, byPool, feedBytes)
    requires var uris := rendered + [Rendered(routes[i], r).text];
             ChosenUris(routes, i + 1, r) == uris && nextFeedBytes == |V.Join(uris)| && FitsSoFar(uris, maximumRoutes)
    ensures SoFar(routes, i + 1, r, maximumRoutes, rendered + [Rendered(routes[i], r).text],
      nodeIds + {routes[i].nodeId}, byPool[routes[i].poolId := CountIn(byPool, routes[i].poolId) + 1], nextFeedBytes)
  {
    hide Chosen, Rendered, NodesAreChosen, PoolsAreCounted, V.Join;
    CountsAfterChosen(routes, i, r, nodeIds, byPool);
  }

  // A budget that runs out has run out for good: no feed, and no later route is rendered.
  lemma OutOfBudget(routes: seq<SelectedRoute>, i: nat, r: Renderer, maximumRoutes: nat)
    requires i < |routes| && !Rendered(routes[i], r).Throws?
    requires forall k | 0 <= k < i :: !CrashesAt(routes, k, r, maximumRoutes)
    requires !FitsSoFar(ChosenUris(routes, i + 1, r), maximumRoutes)
    ensures !WithinBudget(ChosenUris(routes, |routes|, r), maximumRoutes) && !Crashes(routes, r, maximumRoutes)
  {
    hide Chosen, Rendered, V.Join;
    ChosenUrisGrow(routes, i + 1, |routes|, r);
    forall k | 0 <= k < |routes| ensures !CrashesAt(routes, k, r, maximumRoutes) {
      if i < k {
        ChosenUrisGrow(routes, i + 1, k, r);
      }
    }
  }

  lemma CrashesNow(routes: seq<SelectedRoute>, i: nat, r: Renderer, maximumRoutes: nat,
                   rendered: seq<Text>, nodeIds: set<Id>, byPool: map<Id, nat>, feedBytes: nat)
    requires i < |routes| && routes[i].nodeId !in nodeIds && Rendered(routes[i], r).Throws?
    requires SoFar(routes, i, r, maximumRoutes, rendered, nodeIds, byPool, feedBytes)
    ensures Crashes(routes, r, maximumRoutes)
  {
    hide Chosen, Rendered, PoolsAreCounted, V.Join;
    assert CrashesAt(routes, i, r, maximumRoutes);
  }

  // Renders the feed. It is the chosen routes' URIs, all of them or no feed at all.
  method RenderFeed(routes: seq<SelectedRoute>, r: Renderer, maximumRoutes: nat) returns (feed: Feed)
    requires OnePoolPerNode(routes) && Injective(r.derive) && V.KnowsAddresses(r.isIP)
    ensures feed.Crashed? <==> Crashes(routes, r, maximumRoutes)
    ensures !feed.Crashed? ==> (feed.Feed? <==> WithinBudget(ChosenUris(routes, |routes|, r), maximumRoutes))
    ensures feed.Feed? ==> feed.text == V.Join(ChosenUris(routes, |routes|, r))
    ensures feed.Feed? ==> ByteLength(feed.text) == |feed.text| <= MAX_FEED_BYTES
  {
    hide Chosen, NodesAreChosen, PoolsAreCounted, V.Join, ByteLength, V.RenderVlessTcpTls, CrashesAt, ChosenUris,
      Injective, OnePoolPerNode, V.KnowsAddresses;
    var rendered: seq<Text> := [];
    var renderedNodeIds: set<Id> := {};
    var renderedByPool: map<Id, nat> := map[];
    var feedBytes: nat := 0;
    NothingRendered(routes, r, maximumRoutes);
    for i := 0 to |routes|
      invariant SoFar(routes, i, r, maximumRoutes, rendered, renderedNodeIds, renderedByPool, feedBytes)
    {
      var route := routes[i];
      if route.nodeId in renderedNodeIds {
        SkipServed(routes, i, r, maximumRoutes, rendered, renderedNodeIds, renderedByPool, feedBytes);
        continue;
      }
      if !Supported(route, r) {
        SkipNotRenderable(routes, i, r, maximumRoutes, rendered, renderedNodeIds, renderedByPool, feedBytes);
        continue;
      }
      hide Supported;
      var uri := V.RenderVlessTcpTls(AsRoute(route, r), r.isIP);
      assert uri == Rendered(route, r);
      if uri.Throws? {
        CrashesNow(routes, i, r, maximumRoutes, rendered, renderedNodeIds, renderedByPool, feedBytes);
        return Crashed;
      }
      var poolRouteCount := CountIn(renderedByPool, route.poolId);
      if uri.NotRenderable? {
        SkipNotRenderable(routes, i, r, maximumRoutes, rendered, renderedNodeIds, renderedByPool, feedBytes);
        continue;
      }
      if uri.text !in rendered && poolRouteCount < route.poolCandidateLimit {
        NextUri(routes, i, r, maximumRoutes, rendered, renderedNodeIds, renderedByPool, feedBytes);
        if maximumRoutes <= |rendered| {
          OutOfBudget(routes, i, r, maximumRoutes);
          return Unavailable;
        }
        var nextFeedBytes := feedBytes + (if |rendered| == 0 then 0 else 1) + ByteLength(uri.text);
        if MAX_FEED_BYTES < nextFeedBytes {
          OutOfBudget(routes, i, r, maximumRoutes);
          return Unavailable;
        }
        AddUri(routes, i, r, maximumRoutes, rendered, renderedNodeIds, renderedByPool, feedBytes, nextFeedBytes);
        rendered := rendered + [uri.text];
        renderedNodeIds := renderedNodeIds + {route.nodeId};
        renderedByPool := renderedByPool[route.poolId := poolRouteCount + 1];
        feedBytes := nextFeedBytes;
      } else {
        SkipRepeatedOrFull(routes, i, r, maximumRoutes, rendered, renderedNodeIds, renderedByPool, feedBytes);
      }
    }
    if |rendered| == 0 {
      return Unavailable;
    }
    FeedBytes(routes, r);
    feed := Feed(V.Join(rendered));
  }

  lemma NothingRendered(routes: seq<SelectedRoute>, r: Renderer, maximumRoutes: nat)
    ensures SoFar(routes, 0, r, maximumRoutes, [], {}, map[], 0)
  {
  }

  lemma NotRenderableNotChosen(routes: seq<SelectedRoute>, i: nat, r: Renderer)
    requires i < |routes| && !Renderable(routes[i], r)
    ensures !Chosen(routes, i, r)
  {
  }

  lemma {:induction false} ChosenAreLines(routes: seq<SelectedRoute>, n: nat, r: Renderer)
    requires n <= |routes| && V.KnowsAddresses(r.isIP)
    ensures forall u | u in ChosenUris(routes, n, r) :: V.IsLine(u)
  {
    forall u | u in ChosenUris(routes, n, r) ensures V.IsLine(u) {
      ChosenUrisExactly(routes, n, r, u);
      var j :| 0 <= j < n && Chosen(routes, j, r) && Rendered(routes[j], r).text == u;
      RenderedUri(routes[j], r);
    }
  }

  lemma OneMoreLabel(lines: seq<Text>, names: seq<Text>, line: Text, name: Text)
    requires V.LabelsOf(lines) == Some(names) && line != [] && V.LabelOf(line) == Some(name)
    ensures V.LabelsOf(lines + [line]) == Some(names + [name])
  {
  }

  lemma {:induction false} ChosenCarryNames(routes: seq<SelectedRoute>, n: nat, r: Renderer)
    requires n <= |routes| && V.KnowsAddresses(r.isIP)
    ensures V.LabelsOf(ChosenUris(routes, n, r)) == Some(ChosenNames(routes, n, r))
  {
    hide Rendered, Supported, V.LabelOf, V.IsLine, NodesBefore;
    if n > 0 {
      ChosenCarryNames(routes, n - 1, r);
      if Chosen(routes, n - 1, r) {
        ChosenIsRenderable(routes, n - 1, r);
        RenderedUri(routes[n - 1], r);
        OneMoreLabel(ChosenUris(routes, n - 1, r), ChosenNames(routes, n - 1, r), Rendered(routes[n - 1], r).text,
                     routes[n - 1].displayName.value);
      } else {
        assert ChosenUris(routes, n, r) == ChosenUris(routes, n - 1, r);
        assert ChosenNames(routes, n, r) == ChosenNames(routes, n - 1, r);
      }
    }
  }

  // A feed takes as many bytes as it has characters.
  lemma FeedBytes(routes: seq<SelectedRoute>, r: Renderer)
    requires V.KnowsAddresses(r.isIP)
    ensures ByteLength(V.Join(ChosenUris(routes, |routes|, r))) == |V.Join(ChosenUris(routes, |routes|, r))|
  {
    hide Rendered, Supported, NodesBefore, V.IsLine, V.LabelOf;
    forall u | u in ChosenUris(routes, |routes|, r) ensures IsAscii(u) {
      ChosenUrisExactly(routes, |routes|, r, u);
      var j :| 0 <= j < |routes| && Chosen(routes, j, r) && Rendered(routes[j], r).text == u;
      ChosenIsRenderable(routes, j, r);
      RenderedUri(routes[j], r);
    }
    JoinedAscii(ChosenUris(routes, |routes|, r));
    AsciiByteLength(V.Join(ChosenUris(routes, |routes|, r)));
  }

  // The labels read back from a feed are the display names of its routes, in order.
  lemma FeedRoundTrips(routes: seq<SelectedRoute>, r: Renderer)
    requires V.KnowsAddresses(r.isIP) && ChosenUris(routes, |routes|, r) != []
    ensures V.LabelsOf(V.Lines(V.Join(ChosenUris(routes, |routes|, r)))) == Some(ChosenNames(routes, |routes|, r))
  {
    ChosenAreLines(routes, |routes|, r);
    ChosenCarryNames(routes, |routes|, r);
    V.JoinRoundTrips(ChosenUris(routes, |routes|, r));
  }

  // What a client is told of a route: the credential of its own binding, and the route's published address.
  ghost function Told(route: SelectedRoute, r: Renderer): U.Connection
    requires Present(route.tlsServerName) && Present(route.displayName)
  {
    U.Connection(r.derive(A.CredentialBinding(route.grantId, r.deviceId, route.nodeId)), route.host,
                 route.addressKind == V.Ipv6, route.port, U.Fields(route.tlsServerName.value), route.displayName.value)
  }

  ghost function ChosenConnections(routes: seq<SelectedRoute>, n: nat, r: Renderer): seq<U.Connection>
    requires n <= |routes|
  {
    if n == 0 then []
    else ChosenConnections(routes, n - 1, r)
         + if Chosen(routes, n - 1, r) then [Told(routes[n - 1], r)] else []
  }

  lemma RenderedTellsRoute(route: SelectedRoute, r: Renderer)
    requires Renderable(route, r) && V.KnowsAddresses(r.isIP)
    ensures U.ReadUri(Rendered(route, r).text) == Some(Told(route, r))
  {
    hide V.RenderVlessTcpTls, U.ReadUri, U.Fields;
    U.RenderedReadsBack(AsRoute(route, r), r.isIP);
  }

  lemma {:induction false} ChosenTellRoutes(routes: seq<SelectedRoute>, n: nat, r: Renderer)
    requires n <= |routes| && V.KnowsAddresses(r.isIP)
    ensures U.ReadLines(ChosenUris(routes, n, r)) == Some(ChosenConnections(routes, n, r))
  {
    hide Rendered, Supported, U.ReadUri, NodesBefore, Told;
    if n > 0 {
      ChosenTellRoutes(routes, n - 1, r);
      if Chosen(routes, n - 1, r) {
        ChosenIsRenderable(routes, n - 1, r);
        RenderedTellsRoute(routes[n - 1], r);
        var before, uri := ChosenUris(routes, n - 1, r), Rendered(routes[n - 1], r).text;
        assert (before + [uri])[..|before|] == before;
      } else {
        assert ChosenUris(routes, n, r) == ChosenUris(routes, n - 1, r);
        assert ChosenConnections(routes, n, r) == ChosenConnections(routes, n - 1, r);
      }
    }
  }

  // A client that reads a feed finds the chosen routes: their credentials, addresses, server names and
  // display names, in order.
  lemma FeedTellsRoutes(routes: seq<SelectedRoute>, r: Renderer)
    requires V.KnowsAddresses(r.isIP) && ChosenUris(routes, |routes|, r) != []
    ensures U.ReadLines(V.Lines(V.Join(ChosenUris(routes, |routes|, r))))
         == Some(ChosenConnections(routes, |routes|, r))
  {
    ChosenAreLines(routes, |routes|, r);
    ChosenTellRoutes(routes, |routes|, r);
    V.JoinRoundTrips(ChosenUris(routes, |routes|, r));
  }

  // ---------- what the selection gives each pool ----------

  ghost function ChosenIn(routes: seq<SelectedRoute>, n: nat, poolId: Id, r: Renderer): set<int>
    requires n <= |routes|
  {
    set i | 0 <= i < n && routes[i].poolId == poolId && Chosen(routes, i, r)
  }

  lemma OneMoreChosen(routes: seq<SelectedRoute>, n: nat, poolId: Id, r: Renderer)
    requires 0 < n <= |routes|
    ensures |ChosenIn(routes, n, poolId, r)| == |ChosenIn(routes, n - 1, poolId, r)|
                                             + if routes[n - 1].poolId == poolId
                                               && Chosen(routes, n - 1, r) then 1 else 0
  {
    hide Chosen;
    var before := ChosenIn(routes, n - 1, poolId, r);
    assert ChosenIn(routes, n, poolId, r)
        == before + if routes[n - 1].poolId == poolId && Chosen(routes, n - 1, r) then {n - 1} else {};
    assert n - 1 !in before;
  }

  lemma {:induction false} ChosenCount(routes: seq<SelectedRoute>, n: nat, poolId: Id, limit: nat, r: Renderer)
    requires n <= |routes|
    requires forall i | 0 <= i < |routes| && routes[i].poolId == poolId :: routes[i].poolCandidateLimit == limit
    ensures |ChosenIn(routes, n, poolId, r)| == Capped(NodesBefore(routes, n, poolId, r), limit)
  {
    hide FirstOfNode, ChosenIn;
    if n > 0 {
      ChosenCount(routes, n - 1, poolId, limit, r);
      OneMoreChosen(routes, n, poolId, r);
    } else {
      assert ChosenIn(routes, 0, poolId, r) == {} by {
        NoneChosen(routes, poolId, r);
      }
    }
  }

  lemma NoneChosen(routes: seq<SelectedRoute>, poolId: Id, r: Renderer)
    ensures ChosenIn(routes, 0, poolId, r) == {}
  {
  }

  lemma {:induction false} NodesBeforeGrow(routes: seq<SelectedRoute>, m: nat, n: nat, poolId: Id, r: Renderer)
    requires m <= n <= |routes|
    ensures NodesBefore(routes, m, poolId, r) <= NodesBefore(routes, n, poolId, r)
  {
    hide FirstOfNode;
    if m < n {
      NodesBeforeGrow(routes, m, n - 1, poolId, r);
    }
  }

  lemma {:induction false} HasFirst(routes: seq<SelectedRoute>, i: nat, r: Renderer) returns (first: nat)
    requires i < |routes| && Renderable(routes[i], r)
    ensures first <= i && FirstOfNode(routes, first, r) && routes[first].nodeId == routes[i].nodeId
  {
    hide Rendered;
    first := i;
    if j :| 0 <= j < i && Renderable(routes[j], r) && routes[j].nodeId == routes[i].nodeId {
      first := HasFirst(routes, j, r);
    }
  }

  // One node of the pool: it is served, or as many before it are as the pool allows.
  ghost predicate ServedOrFull(routes: seq<SelectedRoute>, i: nat, chosen: set<int>, limit: nat)
    requires i < |routes|
  {
    || (exists j :: j in chosen && 0 <= j <= i && routes[j].nodeId == routes[i].nodeId)
    || (|chosen| == limit && forall j | j in chosen :: j < i)
  }

  lemma NodeIsServedOrFull(routes: seq<SelectedRoute>, i: nat, poolId: Id, limit: nat, r: Renderer)
    requires OnePoolPerNode(routes) && i < |routes| && routes[i].poolId == poolId && Renderable(routes[i], r)
    requires forall k | 0 <= k < |routes| && routes[k].poolId == poolId :: routes[k].poolCandidateLimit == limit
    ensures ServedOrFull(routes, i, ChosenIn(routes, |routes|, poolId, r), limit)
  {
    hide FirstOfNode, Rendered, NodesBefore;
    var f := HasFirst(routes, i, r);
    var chosen := ChosenIn(routes, |routes|, poolId, r);
    if Chosen(routes, f, r) {
      assert f in chosen;
    } else {
      ChosenCount(routes, |routes|, poolId, limit, r);
      NodesBeforeGrow(routes, f, |routes|, poolId, r);
      forall j | j in chosen ensures j < i {
        if f <= j {
          NodesBeforeGrow(routes, f, j, poolId, r);
        }
      }
    }
  }

  // A pool offers one route each of at most as many nodes as its limit, and a node that could be offered
  // is left out only when that many earlier ones are in.
  lemma PoolsAreFilled(routes: seq<SelectedRoute>, poolId: Id, limit: nat, r: Renderer)
    requires OnePoolPerNode(routes)
    requires forall i | 0 <= i < |routes| && routes[i].poolId == poolId :: routes[i].poolCandidateLimit == limit
    ensures var chosen := ChosenIn(routes, |routes|, poolId, r);
            && |chosen| <= limit
            && (forall i, j | i in chosen && j in chosen && i != j :: routes[i].nodeId != routes[j].nodeId)
            && (forall i | i in chosen :: CanOffer(routes[i], r))
            && forall i | 0 <= i < |routes| && routes[i].poolId == poolId && CanOffer(routes[i], r) ::
                 ServedOrFull(routes, i, chosen, limit)
  {
    hide Rendered, CanOffer, NodesBefore, ServedOrFull;
    ChosenCount(routes, |routes|, poolId, limit, r);
    forall i | 0 <= i < |routes| ensures Renderable(routes[i], r) <==> CanOffer(routes[i], r) {
      RenderableExactly(routes[i], r);
    }
    forall i | 0 <= i < |routes| && routes[i].poolId == poolId && CanOffer(routes[i], r)
      ensures ServedOrFull(routes, i, ChosenIn(routes, |routes|, poolId, r), limit)
    {
      NodeIsServedOrFull(routes, i, poolId, limit, r);
    }
  }
}
