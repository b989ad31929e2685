/** The records exchanged by the route-testing engine. Each Java record with
    Lombok accessors becomes an immutable datatype; a Java `null` becomes `None`. */
module Model {
  import opened Text

  /** A route endpoint retrieved from the route source (`RouteInfo`).
      `url` is declared by the source record but never filled in by the core. */
  datatype RouteInfo = RouteInfo(path: string, httpMethod: string, signature: string, url: Option<string>)

  /** The outcome of testing one route (`RouteTestResult`). `statusCode` is 0 when
      no response was received; `errorMessage` is `None` unless the request failed,
      and may be `None` then too when the failure carried no message. */
  datatype RouteTestResult = RouteTestResult(
    route: string,
    url: string,
    statusCode: int,
    statusMessage: string,
    responseTimeMs: int,
    success: bool,
    errorMessage: Option<string>)

  /** The report of one run (`TestResponse`). */
  datatype TestResponse = TestResponse(
    serviceName: string,
    buildNumber: string,
    totalRoutes: nat,
    passedRoutes: nat,
    failedRoutes: int,
    results: seq<RouteTestResult>,
    totalDurationMs: int)

  /** The caller's request (`TestRequest`); `environment` defaults to "qa". */
  datatype TestRequest = TestRequest(
    serviceName: string,
    buildNumber: string,
    baseRouteUrl: string,
    environment: string)

  const DefaultEnvironment: string := "qa"
}
