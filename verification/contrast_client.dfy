/** The decision logic of the client for the Contrast Security API, the source of
    the routes to test. Every HTTP exchange is an input: its outcome (an exception,
    or a status code with the parsed body) is given, and the model decides what
    the client does with it. Parsed JSON bodies are the datatypes below; a field
    value is the text that `JsonNode.asText()` yields for it. */
module ContrastClient {
  import opened Text
  import opened Model
  import Base64

  /** One HTTP exchange as the client sees it: the send (or the request building,
      or the JSON parsing of the body) threw, or a response arrived. */
  datatype Exchange<T> = Threw | Answered(status: int, body: T)

  /** One element of the `applications` array. A missing field, or an element that
      is not an object, reads as `None`. */
  datatype AppNode = AppNode(name: Option<string>, appId: Option<string>)

  /** The body of the applications call: unparsable, without an `applications`
      array, or with one. */
  datatype AppsDoc = AppsUnparsable | NoAppsArray | AppsArray(apps: seq<AppNode>)

  /** One element of the `routes` array, with its optional `verb`, `route` and
      `signature` fields. */
  datatype RouteNode = RouteNode(verb: Option<string>, route: Option<string>, signature: Option<string>)

  datatype RoutesDoc = RoutesUnparsable | NoRoutesArray | RoutesArray(nodes: seq<RouteNode>)

  /** What the API answers during one run: the connection check, the applications
      lookup, and the routes call for whichever application id is asked for. */
  datatype ContrastApi = ContrastApi(
    connectCall: Exchange<AppsDoc>,
    appsCall: Exchange<AppsDoc>,
    routesCall: string -> Exchange<RoutesDoc>)

  // ---------------------------------------------------------------------------
  // testConnection

  /** The client is connected exactly when the applications endpoint answers 200;
      any other status, and any exception, give `false`. */
  function TestConnection(call: Exchange<AppsDoc>): (connected: bool)
    ensures connected <==> call.Answered? && call.status == 200
  {
    match call
    case Threw => false
    case Answered(status, _) => status == 200
  }

  // ---------------------------------------------------------------------------
  // getApplicationId

  /** The id of the first application whose name equals `serviceName` ignoring
      case. Reading the name of an element that has none throws, which ends the
      search with `None`; so does reading a missing `app_id` of the match. */
  function FirstMatchingAppId(apps: seq<AppNode>, serviceName: string): Option<string>
    decreases |apps|
  {
    if apps == [] then None
    else
      match apps[0].name
      case None => None
      case Some(n) =>
        if EqualsIgnoreCase(n, serviceName) then apps[0].appId
        else FirstMatchingAppId(apps[1..], serviceName)
  }

  /** The application id the lookup yields for a given applications response. */
  function ApplicationId(call: Exchange<AppsDoc>, serviceName: string): Option<string> {
    if call.Answered? && call.status == 200 && call.body.AppsArray? then
      FirstMatchingAppId(call.body.apps, serviceName)
    else None
  }

  /** Application `i` is the first match: it and every application before it
      has a name, its name matches and no earlier one does. */
  ghost predicate FirstMatchAt(apps: seq<AppNode>, serviceName: string, i: int) {
    && 0 <= i < |apps|
    && apps[i].name.Some?
    && EqualsIgnoreCase(apps[i].name.value, serviceName)
    && forall j :: 0 <= j < i ==> apps[j].name.Some? && !EqualsIgnoreCase(apps[j].name.value, serviceName)
  }

  /** The lookup returns the id of the first matching application, and nothing when
      there is no first match (no match at all, or a nameless element before it). */
  lemma {:induction false} FirstMatchingAppIdIsFirstMatch(apps: seq<AppNode>, serviceName: string)
    ensures forall i :: FirstMatchAt(apps, serviceName, i) ==> FirstMatchingAppId(apps, serviceName) == apps[i].appId
    ensures (forall i :: !FirstMatchAt(apps, serviceName, i)) ==> FirstMatchingAppId(apps, serviceName) == None
    decreases |apps|
  {
    if apps != [] {
      var tail := apps[1..];
      FirstMatchingAppIdIsFirstMatch(tail, serviceName);
      forall i | FirstMatchAt(apps, serviceName, i) && i > 0
        ensures FirstMatchAt(tail, serviceName, i - 1)
      {
        assert forall j :: 0 <= j < i - 1 ==> tail[j] == apps[j + 1];
      }
      if apps[0].name.Some? && !EqualsIgnoreCase(apps[0].name.value, serviceName) {
        forall i | FirstMatchAt(tail, serviceName, i)
          ensures FirstMatchAt(apps, serviceName, i + 1)
        {
          forall j | 0 <= j < i + 1
            ensures apps[j].name.Some? && !EqualsIgnoreCase(apps[j].name.value, serviceName)
          {
            if j > 0 {
              assert apps[j] == tail[j - 1];
            }
          }
        }
      }
      if apps[0].name.Some? && EqualsIgnoreCase(apps[0].name.value, serviceName) {
        assert FirstMatchAt(apps, serviceName, 0);
      }
    }
  }

  /** The source's `getApplicationId`: a loop over the applications with an early
      return on the first match, and `null` on any failure. */
  method GetApplicationId(call: Exchange<AppsDoc>, serviceName: string) returns (appId: Option<string>)
    ensures appId == ApplicationId(call, serviceName)
  {
    if call.Threw? || call.status != 200 || !call.body.AppsArray? {
      return None;
    }
    var apps := call.body.apps;
    var i := 0;
    while i < |apps|
      invariant 0 <= i <= |apps|
      invariant FirstMatchingAppId(apps, serviceName) == FirstMatchingAppId(apps[i..], serviceName)
    {
      var app := apps[i];
      assert apps[i..][1..] == apps[i + 1..];
      if app.name.None? {
        return None;
      }
      if EqualsIgnoreCase(app.name.value, serviceName) {
        return app.appId;
      }
      i := i + 1;
    }
    return None;
  }

  // ---------------------------------------------------------------------------
  // parseRoutesFromResponse

  /** The verb of a route node, "GET" when the node has none. */
  function NodeVerb(n: RouteNode): string {
    n.verb.GetOr("GET")
  }

  predicate IsGetNode(n: RouteNode) {
    EqualsIgnoreCase("GET", NodeVerb(n))
  }

  /** A GET node without a `route` field: reading it throws and ends the parse. */
  predicate Breaks(n: RouteNode) {
    IsGetNode(n) && n.route.None?
  }

  /** The route kept for a GET node: its path, its verb as written, and its
      signature or "". */
  function RouteOf(n: RouteNode): RouteInfo
    requires n.route.Some?
  {
    RouteInfo(n.route.value, NodeVerb(n), n.signature.GetOr(""), None)
  }

  /** The routes kept from the nodes: the GET ones, in order, up to the first node
      that breaks the parse. */
  function ParsedNodes(nodes: seq<RouteNode>): (routes: seq<RouteInfo>)
    ensures |routes| <= |nodes|
    ensures forall i :: 0 <= i < |routes| ==> EqualsIgnoreCase("GET", routes[i].httpMethod)
    decreases |nodes|
  {
    if nodes == [] then []
    else
      var n := nodes[0];
      if !IsGetNode(n) then ParsedNodes(nodes[1..])
      else if n.route.None? then []
      else [RouteOf(n)] + ParsedNodes(nodes[1..])
  }

  function ParsedRoutes(doc: RoutesDoc): seq<RouteInfo> {
    if doc.RoutesArray? then ParsedNodes(doc.nodes) else []
  }

  /** The parse is a filter in input order: the routes of `a + b` are those of
      `a` followed by those of `b`, unless a node of `a` breaks the parse, in
      which case nothing of `b` is read. */
  lemma {:induction false} ParsedNodesAppend(a: seq<RouteNode>, b: seq<RouteNode>)
    ensures (forall i :: 0 <= i < |a| ==> !Breaks(a[i])) ==> ParsedNodes(a + b) == ParsedNodes(a) + ParsedNodes(b)
    ensures (exists i :: 0 <= i < |a| && Breaks(a[i])) ==> ParsedNodes(a + b) == ParsedNodes(a)
    decreases |a|
  {
    if a == [] {
      assert a + b == b;
    } else {
      assert (a + b)[1..] == a[1..] + b;
      ParsedNodesAppend(a[1..], b);
      assert forall i :: 1 <= i < |a| ==> a[i] == a[1..][i - 1];
      assert (exists i :: 0 <= i < |a| && Breaks(a[i])) ==>
        Breaks(a[0]) || exists i :: 0 <= i < |a[1..]| && Breaks(a[1..][i]);
    }
  }

  /** A single node contributes its route when it is a GET node, nothing otherwise. */
  lemma ParsedSingleNode(n: RouteNode)
    ensures !IsGetNode(n) ==> ParsedNodes([n]) == []
    ensures IsGetNode(n) && n.route.Some? ==> ParsedNodes([n]) == [RouteOf(n)]
  {
    assert [n][1..] == [];
  }

  /** One step of the parse, read at position `i` of the nodes. */
  lemma ParsedNodesAt(nodes: seq<RouteNode>, i: nat)
    requires i < |nodes|
    ensures !IsGetNode(nodes[i]) ==> ParsedNodes(nodes[i..]) == ParsedNodes(nodes[i + 1..])
    ensures Breaks(nodes[i]) ==> ParsedNodes(nodes[i..]) == []
    ensures IsGetNode(nodes[i]) && nodes[i].route.Some? ==>
      ParsedNodes(nodes[i..]) == [RouteOf(nodes[i])] + ParsedNodes(nodes[i + 1..])
  {
    assert nodes[i..][1..] == nodes[i + 1..];
  }

  /** The source's `parseRoutesFromResponse`: the kept routes grow in a loop, and an
      exception part-way returns those collected so far. The build number is
      passed but not used. */
  method ParseRoutesFromResponse(doc: RoutesDoc, buildNumber: string) returns (routes: seq<RouteInfo>)
    ensures routes == ParsedRoutes(doc)
  {
    routes := [];
    if !doc.RoutesArray? {
      return;
    }
    var nodes := doc.nodes;
    var i := 0;
    while i < |nodes|
      invariant 0 <= i <= |nodes|
      invariant ParsedNodes(nodes) == routes + ParsedNodes(nodes[i..])
    {
      var node := nodes[i];
      ParsedNodesAt(nodes, i);
      var verb := NodeVerb(node);
      if IsGetNode(node) {
        if node.route.None? {
          return;
        }
        var route := RouteInfo(node.route.value, verb, node.signature.GetOr(""), None);
        routes := routes + [route];
      }
      i := i + 1;
    }
    assert nodes[i..] == [];
  }

  // ---------------------------------------------------------------------------
  // retrieveRoutes

  /** The routes the client hands back for a service. */
  function RetrievedRoutes(api: ContrastApi, serviceName: string): (routes: seq<RouteInfo>)
    ensures forall i :: 0 <= i < |routes| ==> EqualsIgnoreCase("GET", routes[i].httpMethod)
  {
    match ApplicationId(api.appsCall, serviceName)
    case None => []
    case Some(id) =>
      var call := api.routesCall(id);
      if call.Answered? && call.status == 200 then ParsedRoutes(call.body) else []
  }

  /** The source's `retrieveRoutes`. It never fails: an unknown application, a
      routes call that does not answer 200, or an exception all give the empty list. */
  method RetrieveRoutes(api: ContrastApi, serviceName: string, buildNumber: string) returns (routes: seq<RouteInfo>)
    ensures routes == RetrievedRoutes(api, serviceName)
    ensures ApplicationId(api.appsCall, serviceName).None? ==> routes == []
    ensures ApplicationId(api.appsCall, serviceName).Some? ==>
      var call := api.routesCall(ApplicationId(api.appsCall, serviceName).value);
      routes == if call.Answered? && call.status == 200 then ParsedRoutes(call.body) else []
  {
    routes := [];
    var applicationId := GetApplicationId(api.appsCall, serviceName);
    if applicationId.None? {
      return;
    }
    var response := api.routesCall(applicationId.value);
    if response.Answered? && response.status == 200 {
      routes := ParseRoutesFromResponse(response.body, buildNumber);
    }
  }

  // ---------------------------------------------------------------------------
  // createAuthorizationHeader

  const Colon: Base64.byte := 58

  /** HTTP Basic credentials (section 2 of RFC 7617): "Basic " followed by the
      Base64 encoding of the user name, a colon and the key. The two names are
      given as their UTF-8 bytes. */
  function AuthorizationHeader(username: seq<Base64.byte>, serviceKey: seq<Base64.byte>): (header: string)
    ensures "Basic " <= header
    ensures |header| == 6 + 4 * ((|username| + |serviceKey| + 3) / 3)
    ensures Base64.Decode(header[6..]) == Some(username + [Colon] + serviceKey)
  {
    var credentials := username + [Colon] + serviceKey;
    Base64.DecodeEncode(credentials);
    "Basic " + Base64.Encode(credentials)
  }

  /** Index of the first colon byte, or `|bs|` when there is none. */
  function FirstColon(bs: seq<Base64.byte>): (k: nat)
    ensures k <= |bs|
    ensures k < |bs| ==> bs[k] == Colon
    ensures forall j :: 0 <= j < k ==> bs[j] != Colon
    decreases |bs|
  {
    if bs == [] || bs[0] == Colon then 0 else 1 + FirstColon(bs[1..])
  }

  /** How a server reads Basic credentials: the user id ends at the first colon. */
  function ParseBasicCredentials(header: string): Option<(seq<Base64.byte>, seq<Base64.byte>)> {
    if !("Basic " <= header) then None
    else
      match Base64.Decode(header[6..])
      case None => None
      case Some(bytes) =>
        var k := FirstColon(bytes);
        if k == |bytes| then None else Some((bytes[..k], bytes[k + 1..]))
  }

  /** A server recovers the user name and the key from the header, provided the
      user name holds no colon, as section 2 of RFC 7617 requires of it. */
  lemma AuthorizationHeaderRoundTrip(username: seq<Base64.byte>, serviceKey: seq<Base64.byte>)
    requires Colon !in username
    ensures ParseBasicCredentials(AuthorizationHeader(username, serviceKey)) == Some((username, serviceKey))
  {
    var bytes := username + [Colon] + serviceKey;
    var k := FirstColon(bytes);
    assert bytes[|username|] == Colon;
    assert forall j :: 0 <= j < |username| ==> bytes[j] == username[j];
    assert k == |username|;
    assert bytes[..k] == username;
    assert bytes[k + 1..] == serviceKey;
  }
}
