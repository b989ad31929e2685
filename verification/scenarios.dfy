/** Whole runs of the engine on concrete route sets, for any base URL that holds
    no `{`. */
module Scenarios {
  import opened Text
  import opened Model
  import opened Placeholders
  import opened ContrastClient
  import opened RouteTesting

  /** The service under test at `host` answers 500 on `/c` and 200 everywhere else. */
  function HostSend(host: string): Probe {
    (i, url) => if url == host + "/c" then Responded(500, 0) else Responded(200, 0)
  }

  const ScenarioApps: seq<AppNode> := [AppNode(Some("Billing"), Some("app-7")), AppNode(Some("ORDERS"), Some("app-9"))]

  /** The routes document of the scenario: three GET routes (one with no verb, one
      with a lower-case verb) and one POST route. */
  const ScenarioNodes: seq<RouteNode> := [
    RouteNode(None, Some("/a"), None),
    RouteNode(Some("get"), Some("/b/{id}"), Some("Orders.get")),
    RouteNode(Some("GET"), Some("/c"), None),
    RouteNode(Some("POST"), Some("/d"), None)]

  const ScenarioApi: ContrastApi := ContrastApi(
    Answered(200, AppsArray(ScenarioApps)),
    Answered(200, AppsArray(ScenarioApps)),
    id => if id == "app-9" then Answered(200, RoutesArray(ScenarioNodes)) else Answered(404, NoRoutesArray))

  const ScenarioRoutes: seq<RouteInfo> := [
    RouteInfo("/a", "GET", "", None),
    RouteInfo("/b/{id}", "get", "Orders.get", None),
    RouteInfo("/c", "GET", "", None)]

  /** "orders" finds the second application, whose name differs only in case. */
  lemma ScenarioAppId()
    ensures ApplicationId(ScenarioApi.appsCall, "orders") == Some("app-9")
  {
    assert !EqualsIgnoreCase("Billing", "orders");
    assert EqualsIgnoreCase("ORDERS", "orders");
    assert ScenarioApps[1..] == [AppNode(Some("ORDERS"), Some("app-9"))];
  }

  /** The POST route is dropped; the verb-less and lower-case ones are kept. */
  lemma ScenarioParse()
    ensures ParsedNodes(ScenarioNodes) == ScenarioRoutes
  {
    var tail := ScenarioNodes[3..];
    assert tail[1..] == [];
    assert !EqualsIgnoreCase("GET", "POST");
    assert ParsedNodes(tail) == [];
    assert EqualsIgnoreCase("GET", "get");
    assert ScenarioNodes[2..][1..] == tail;
    assert ParsedNodes(ScenarioNodes[2..]) == [ScenarioRoutes[2]];
    assert ScenarioNodes[1..][1..] == ScenarioNodes[2..];
    assert ParsedNodes(ScenarioNodes[1..]) == ScenarioRoutes[1..];
  }

  lemma ScenarioRetrieves()
    ensures RetrievedRoutes(ScenarioApi, "orders") == ScenarioRoutes
  {
    ScenarioAppId();
    ScenarioParse();
  }

  /** The `{id}` route is requested with the id replaced by 1. */
  lemma ScenarioTemplateUrl(host: string)
    requires NoOpenBrace(host)
    ensures Substituted(host + "/b/{id}") == host + "/b/1"
  {
    var template := [Literal(host + "/b/"), Param("id")];
    assert template[1..] == [Param("id")] && template[1..][1..] == [];
    assert Render(template[1..]) == "{id}";
    assert Render(template) == (host + "/b/") + "{id}" == host + "/b/{id}";
    assert Expected(template[1..]) == "1";
    assert Expected(template) == (host + "/b/") + "1" == host + "/b/1";
    SubstitutedTemplate(template);
  }

  /** A probe whose requested URL answers `code` records that code. */
  lemma ProbeOfResponse(index: nat, route: RouteInfo, baseUrl: string, send: Probe, code: int)
    requires send(index, Substituted(baseUrl + route.path)).Responded?
    requires send(index, Substituted(baseUrl + route.path)).statusCode == code
    ensures ProbeResult(index, route, baseUrl, send).statusCode == code
    ensures ProbeResult(index, route, baseUrl, send).statusMessage == StatusMessage(code)
  {
  }

  /** `/a` and `/b/{id}` answer 200, `/c` answers 500. */
  lemma ScenarioProbeA(host: string)
    requires NoOpenBrace(host)
    ensures ProbeResult(0, ScenarioRoutes[0], host, HostSend(host)).success
  {
    var url := host + ScenarioRoutes[0].path;
    assert url == host + "/a";
    SubstitutedWithoutBraces(url);
    assert url != host + "/c" by {
      assert url[|host| + 1] == 'a';
    }
    ProbeOfResponse(0, ScenarioRoutes[0], host, HostSend(host), 200);
  }

  lemma ScenarioProbeB(host: string)
    requires NoOpenBrace(host)
    ensures ProbeResult(1, ScenarioRoutes[1], host, HostSend(host)).success
  {
    ScenarioTemplateUrl(host);
    assert host + ScenarioRoutes[1].path == host + "/b/{id}";
    assert |host + "/b/1"| != |host + "/c"|;
    ProbeOfResponse(1, ScenarioRoutes[1], host, HostSend(host), 200);
  }

  lemma ScenarioProbeC(host: string)
    requires NoOpenBrace(host)
    ensures ProbeResult(2, ScenarioRoutes[2], host, HostSend(host)).statusCode == 500
    ensures ProbeResult(2, ScenarioRoutes[2], host, HostSend(host)).statusMessage == "Internal Server Error"
  {
    var url := host + ScenarioRoutes[2].path;
    assert url == host + "/c";
    SubstitutedWithoutBraces(url);
    ProbeOfResponse(2, ScenarioRoutes[2], host, HostSend(host), 500);
  }

  lemma ScenarioResults(host: string, results: seq<RouteTestResult>)
    requires NoOpenBrace(host)
    requires |results| == 3
    requires forall i :: 0 <= i < 3 ==> results[i] == ProbeResult(i, ScenarioRoutes[i], host, HostSend(host))
    ensures results[0].success && results[1].success && !results[2].success
    ensures results[2].statusCode == 500 && results[2].statusMessage == "Internal Server Error"
  {
    ScenarioProbeA(host);
    ScenarioProbeB(host);
    ScenarioProbeC(host);
    assert results[0] == ProbeResult(0, ScenarioRoutes[0], host, HostSend(host));
    assert results[1] == ProbeResult(1, ScenarioRoutes[1], host, HostSend(host));
    assert results[2] == ProbeResult(2, ScenarioRoutes[2], host, HostSend(host));
  }

  lemma TwoOfThreePass(results: seq<RouteTestResult>)
    requires |results| == 3
    requires results[0].success && results[1].success && !results[2].success
    ensures CountPassed(results) == 2
  {
    assert results[2..][1..] == [];
    assert CountPassed(results[2..]) == 0;
    assert results[1..][1..] == results[2..];
    assert CountPassed(results[1..]) == 1;
  }

  /** A network on which the first route's request answers 200 within 5 ms and
      every later one answers 503 after 40 ms, whatever URL they ask for. */
  const SplitSend: Probe := (i, url) => if i == 0 then Responded(200, 5) else Responded(503, 40)

  /** `/x/{id}` and `/x/{userId}` request the same URL, yet each route's request
      is an exchange of its own: one may pass quickly while the other fails slowly. */
  lemma SameUrlSeparateProbes(host: string)
    requires NoOpenBrace(host)
    ensures Substituted(host + "/x/{id}") == Substituted(host + "/x/{userId}") == host + "/x/1"
    ensures var first := ProbeResult(0, RouteInfo("/x/{id}", "GET", "", None), host, SplitSend);
      var second := ProbeResult(1, RouteInfo("/x/{userId}", "GET", "", None), host, SplitSend);
      first.success && !second.success && first.responseTimeMs != second.responseTimeMs
  {
    var prefix := host + "/x/";
    assert NoOpenBrace(prefix) by {
      assert forall c :: c in prefix ==> c in host || c in "/x/";
    }
    ExampleKnownNames(prefix);
    assert host + "/x/{id}" == prefix + "{id}";
    assert host + "/x/{userId}" == prefix + "{userId}";
  }

  /** Three GET routes `/a`, `/b/{id}` and `/c` on `host`, two answering 200 and
      one 500: the report counts three routes, two passed and one failed, and
      lists the three templates once each, in route order. The POST route is
      neither retrieved nor tested. */
  method ThreeRouteRun(host: string) returns (outcome: RunOutcome, steps: seq<Step>)
    requires NoOpenBrace(host)
    ensures steps == [Connect, Retrieve, Test]
    ensures outcome.Completed?
    ensures outcome.response.totalRoutes == 3
    ensures outcome.response.passedRoutes == 2 && outcome.response.failedRoutes == 1
    ensures |outcome.response.results| == 3
    ensures outcome.response.results[0].route == "/a"
    ensures outcome.response.results[1].route == "/b/{id}"
    ensures outcome.response.results[2].route == "/c"
    ensures outcome.response.results[2].statusMessage == "Internal Server Error"
  {
    var request := TestRequest("orders", "1.0.42", host, DefaultEnvironment);
    ScenarioRetrieves();
    outcome, steps := ExecuteRouteTests(request, ScenarioApi, HostSend(host), 0);
    ScenarioResults(host, outcome.response.results);
    TwoOfThreePass(outcome.response.results);
  }
}
