/** The route-testing engine: probing one route, testing all routes of a service,
    and the three-step run (connect, retrieve, test) that produces the report.
    The HTTP client is an input: `send(i, url)` gives what the GET of `url`
    issued for the `i`-th route yields, a status code or an exception, with the
    time the call took. Each route's request is its own exchange, so two routes
    that request the same URL may see different outcomes. */
module RouteTesting {
  import opened Text
  import opened Model
  import opened Placeholders
  import opened ContrastClient

  /** What sending one probe yields: a response with its status code, or an
      exception with its message (Java's `getMessage()` may be null). `elapsedMs`
      is the wall-clock time the source measures around the call. */
  datatype HttpOutcome = Responded(statusCode: int, elapsedMs: int) | Failed(message: Option<string>, elapsedMs: int)

  /** The network as the engine sees it: the outcome of the request sent for the
      route at a given position, to a given URL. */
  type Probe = (nat, string) -> HttpOutcome

  // ---------------------------------------------------------------------------
  // getStatusMessage

  const KnownCodes: set<int> := {200, 201, 204, 400, 401, 403, 404, 500, 502, 503}

  /** The human-readable label of a status code. */
  function StatusMessage(statusCode: int): string {
    match statusCode
    case 200 => "OK"
    case 201 => "Created"
    case 204 => "No Content"
    case 400 => "Bad Request"
    case 401 => "Unauthorized"
    case 403 => "Forbidden"
    case 404 => "Not Found"
    case 500 => "Internal Server Error"
    case 502 => "Bad Gateway"
    case 503 => "Service Unavailable"
    case _ => "HTTP " + DecimalText(statusCode)
  }

  /** A code outside the table is labelled "HTTP " + its decimal text, from which
      the code reads back. */
  lemma StatusMessageOfOtherCode(statusCode: int)
    requires statusCode !in KnownCodes
    ensures "HTTP " <= StatusMessage(statusCode)
    ensures StatusMessage(statusCode)[0] == 'H'
    ensures ParseDecimal(StatusMessage(statusCode)[5..]) == statusCode
  {
    var m := StatusMessage(statusCode);
    assert m == "HTTP " + DecimalText(statusCode);
    assert m[5..] == DecimalText(statusCode);
    DecimalTextRoundTrip(statusCode);
  }

  /** Reads a status code back from its label. No label of the table starts
      with `H`, and the labels are told apart by their length, and by one
      character where two labels have the same length. */
  function CodeOfLabel(message: string): int {
    if |message| >= 5 && message[0] == 'H' then ParseDecimal(message[5..])
    else if |message| == 2 then 200
    else if |message| == 7 then 201
    else if |message| == 10 then 204
    else if |message| == 11 && message[4] == 'R' then 400
    else if |message| == 11 then 502
    else if |message| == 12 then 401
    else if |message| == 9 && message[0] == 'F' then 403
    else if |message| == 9 then 404
    else if |message| == 21 then 500
    else 503
  }

  /** The label loses nothing: the code reads back from it. */
  lemma StatusMessageRoundTrip(statusCode: int)
    ensures CodeOfLabel(StatusMessage(statusCode)) == statusCode
  {
    if statusCode == 200 {
    } else if statusCode == 201 {
    } else if statusCode == 204 {
    } else if statusCode == 400 {
    } else if statusCode == 401 {
    } else if statusCode == 403 {
    } else if statusCode == 404 {
    } else if statusCode == 500 {
    } else if statusCode == 502 {
    } else if statusCode == 503 {
    } else {
      StatusMessageOfOtherCode(statusCode);
    }
  }

  /** Distinct codes get distinct labels. */
  lemma StatusMessageInjective(a: int, b: int)
    ensures StatusMessage(a) == StatusMessage(b) ==> a == b
  {
    StatusMessageRoundTrip(a);
    StatusMessageRoundTrip(b);
  }

  // ---------------------------------------------------------------------------
  // testSingleRoute

  /** The result of probing `route`, the `index`-th route of the run, against
      `baseUrl`. The index only tells this route's request apart from the others. */
  function ProbeResult(index: nat, route: RouteInfo, baseUrl: string, send: Probe): (r: RouteTestResult)
    ensures r.route == route.path && r.url == baseUrl + route.path
    ensures r.success <==> 200 <= r.statusCode < 300
    ensures r.errorMessage.Some? ==> !r.success && r.statusCode == 0 && r.statusMessage == "Error"
  {
    var fullUrl := baseUrl + route.path;
    match send(index, Substituted(fullUrl))
    case Responded(code, elapsed) =>
      RouteTestResult(route.path, fullUrl, code, StatusMessage(code), elapsed, 200 <= code < 300, None)
    case Failed(message, elapsed) =>
      RouteTestResult(route.path, fullUrl, 0, "Error", elapsed, false, message)
  }

  /** The source's `testSingleRoute`: the request goes to the substituted URL, the
      result records the template and the unsubstituted URL, and a builder is
      completed in one of two branches. It never fails. */
  method TestSingleRoute(index: nat, route: RouteInfo, baseUrl: string, send: Probe) returns (result: RouteTestResult)
    ensures result == ProbeResult(index, route, baseUrl, send)
    ensures result.route == route.path && result.url == baseUrl + route.path
    ensures match send(index, Substituted(baseUrl + route.path))
      case Responded(code, elapsed) =>
        && result.statusCode == code
        && result.statusMessage == StatusMessage(code)
        && result.success == (200 <= code < 300)
        && result.errorMessage == None
        && result.responseTimeMs == elapsed
      case Failed(message, elapsed) =>
        && result.statusCode == 0
        && result.statusMessage == "Error"
        && !result.success
        && result.errorMessage == message
        && result.responseTimeMs == elapsed
  {
    var fullUrl := baseUrl + route.path;
    result := RouteTestResult(route.path, fullUrl, 0, "", 0, false, None);
    var testUrl := ReplaceDynamicParameters(fullUrl);
    var outcome := send(index, testUrl);
    match outcome {
      case Responded(statusCode, elapsed) =>
        var success := statusCode >= 200 && statusCode < 300;
        result := result.(statusCode := statusCode, statusMessage := StatusMessage(statusCode),
                          responseTimeMs := elapsed, success := success);
      case Failed(message, elapsed) =>
        result := result.(statusCode := 0, statusMessage := "Error", responseTimeMs := elapsed,
                          success := false, errorMessage := message);
    }
  }

  // ---------------------------------------------------------------------------
  // testAllRoutes

  /** The results of probing `routes` one after another, in route order. */
  function ProbeAll(routes: seq<RouteInfo>, baseUrl: string, send: Probe): (results: seq<RouteTestResult>)
    ensures |results| == |routes|
    ensures forall i :: 0 <= i < |routes| ==> results[i] == ProbeResult(i, routes[i], baseUrl, send)
    decreases |routes|
  {
    if routes == [] then []
    else
      var last := |routes| - 1;
      var front := ProbeAll(routes[..last], baseUrl, send);
      assert forall i :: 0 <= i < last ==> routes[..last][i] == routes[i];
      front + [ProbeResult(last, routes[last], baseUrl, send)]
  }

  /** The source's `testAllRoutes`, run one route after another: one result per
      route, read back in route order. */
  method TestAllRoutes(routes: seq<RouteInfo>, baseUrl: string, send: Probe)
    returns (results: seq<RouteTestResult>)
    ensures results == ProbeAll(routes, baseUrl, send)
    ensures |results| == |routes|
    ensures forall i :: 0 <= i < |routes| ==> results[i].route == routes[i].path
  {
    results := [];
    for i := 0 to |routes|
      invariant results == ProbeAll(routes[..i], baseUrl, send)
    {
      var result := TestSingleRoute(i, routes[i], baseUrl, send);
      assert routes[..i + 1][..i] == routes[..i];
      results := results + [result];
    }
    assert routes[..|routes|] == routes;
  }

  // ---------------------------------------------------------------------------
  // Aggregation

  /** The number of successful results. */
  function CountPassed(results: seq<RouteTestResult>): (passed: nat)
    ensures passed <= |results|
    decreases |results|
  {
    if results == [] then 0
    else (if results[0].success then 1 else 0) + CountPassed(results[1..])
  }

  /** Every result passed exactly when the count is the number of results, and
      none passed exactly when the count is zero. */
  lemma {:induction false} CountPassedExtremes(results: seq<RouteTestResult>)
    ensures CountPassed(results) == |results| <==> forall i :: 0 <= i < |results| ==> results[i].success
    ensures CountPassed(results) == 0 <==> forall i :: 0 <= i < |results| ==> !results[i].success
    decreases |results|
  {
    if results != [] {
      var tail := results[1..];
      CountPassedExtremes(tail);
      assert forall i :: 1 <= i < |results| ==> results[i] == tail[i - 1];
    }
  }

  lemma {:induction false} CountPassedAppend(a: seq<RouteTestResult>, b: seq<RouteTestResult>)
    ensures CountPassed(a + b) == CountPassed(a) + CountPassed(b)
    decreases |a|
  {
    if a == [] {
      assert a + b == b;
    } else {
      assert (a + b)[1..] == a[1..] + b;
      CountPassedAppend(a[1..], b);
    }
  }

  /** Taking out the result at `k` takes out its pass, if it is one. */
  lemma {:induction false} CountPassedRemove(b: seq<RouteTestResult>, k: int)
    requires 0 <= k < |b|
    ensures CountPassed(b) == CountPassed(b[..k] + b[k + 1..]) + (if b[k].success then 1 else 0)
    decreases k
  {
    if k == 0 {
      assert b[..0] + b[1..] == b[1..];
    } else {
      var rest := b[..k] + b[k + 1..];
      assert rest[0] == b[0];
      assert rest[1..] == b[1..][..k - 1] + b[1..][k..];
      CountPassedRemove(b[1..], k - 1);
    }
  }

  /** Removing the same element from two reorderings of one collection leaves two
      reorderings of one collection. */
  lemma MultisetRemove<T>(a: seq<T>, b: seq<T>, k: int)
    requires multiset(a) == multiset(b) && |a| > 0
    requires 0 <= k < |b| && b[k] == a[0]
    ensures multiset(a[1..]) == multiset(b[..k] + b[k + 1..])
  {
    assert a == [a[0]] + a[1..];
    assert b == b[..k] + [b[k]] + b[k + 1..];
    calc {
      multiset(a[1..]) + multiset{a[0]};
      multiset(a);
      multiset(b);
      multiset(b[..k]) + multiset{a[0]} + multiset(b[k + 1..]);
      multiset(b[..k] + b[k + 1..]) + multiset{a[0]};
    }
    assert multiset(a[1..]) == (multiset(a[1..]) + multiset{a[0]}) - multiset{a[0]};
  }

  /** The counts do not depend on the order of the results: any reordering of
      them, such as completion order, gives the same number of passes. */
  lemma {:induction false} CountPassedPermutation(a: seq<RouteTestResult>, b: seq<RouteTestResult>)
    requires multiset(a) == multiset(b)
    ensures CountPassed(a) == CountPassed(b)
    decreases |a|
  {
    if a == [] {
      assert |b| == |multiset(b)| == 0;
    } else {
      assert a[0] in multiset(b);
      var k :| 0 <= k < |b| && b[k] == a[0];
      MultisetRemove(a, b, k);
      CountPassedPermutation(a[1..], b[..k] + b[k + 1..]);
      CountPassedRemove(b, k);
    }
  }

  // ---------------------------------------------------------------------------
  // executeRouteTests

  /** The steps of a run, in the order they are taken. */
  datatype Step = Connect | Retrieve | Test

  /** A run either produces a report or stops because the connection failed. */
  datatype RunOutcome = Completed(response: TestResponse) | ConnectionFailed(message: string)

  const ConnectFailure: string := "Failed to connect to Contrast Security"

  /** The source's `executeRouteTests`: connect, then retrieve, then test, then
      aggregate. A failed connection ends the run before any route is retrieved or
      tested. `durationMs` is the wall-clock time of the whole run. */
  method ExecuteRouteTests(request: TestRequest, api: ContrastApi, send: Probe, durationMs: int)
    returns (outcome: RunOutcome, steps: seq<Step>)
    ensures !TestConnection(api.connectCall) ==> outcome == ConnectionFailed(ConnectFailure) && steps == [Connect]
    ensures TestConnection(api.connectCall) ==> outcome.Completed? && steps == [Connect, Retrieve, Test]
    ensures outcome.Completed? ==>
      var routes := RetrievedRoutes(api, request.serviceName);
      var report := outcome.response;
      && report.serviceName == request.serviceName
      && report.buildNumber == request.buildNumber
      && report.totalRoutes == |routes| == |report.results|
      && (forall i :: 0 <= i < |routes| ==> report.results[i] == ProbeResult(i, routes[i], request.baseRouteUrl, send))
      && report.passedRoutes == CountPassed(report.results)
      && report.failedRoutes == |report.results| - report.passedRoutes
      && report.totalRoutes == report.passedRoutes + report.failedRoutes
      && report.totalDurationMs == durationMs
    ensures outcome.Completed? && RetrievedRoutes(api, request.serviceName) == [] ==>
      && outcome.response.results == []
      && outcome.response.totalRoutes == outcome.response.passedRoutes == outcome.response.failedRoutes == 0
  {
    steps := [Connect];
    var connected := TestConnection(api.connectCall);
    if !connected {
      outcome := ConnectionFailed(ConnectFailure);
      return;
    }
    steps := steps + [Retrieve];
    var routes := RetrieveRoutes(api, request.serviceName, request.buildNumber);
    steps := steps + [Test];
    var results := TestAllRoutes(routes, request.baseRouteUrl, send);
    var passedCount := CountPassed(results);
    var failedCount := |results| - passedCount;
    outcome := Completed(TestResponse(request.serviceName, request.buildNumber, |routes|,
                                      passedCount, failedCount, results, durationMs));
  }
}
