# Route testing engine: a Dafny model

This project models the route-verification engine of a post-deployment checker.
The engine asks the Contrast Security API for the GET routes of a service. It
probes each route with an HTTP GET against a base URL and reports how many
routes answered with a 2xx status.

The model covers two Java classes.

- `RouteTestingService.executeRouteTests` runs three steps in order:
  - connect to Contrast Security, and fail the run if that is refused;
  - retrieve the routes;
  - test every route.

  It then counts the passes and failures. `testAllRoutes` probes every
  route. `testSingleRoute` turns one probe into a `RouteTestResult`.
  `replaceDynamicParameters` rewrites a route template such as
  `/api/users/{id}` into a URL that can be requested. `getStatusMessage`
  labels a status code.
- `ContrastSecurityClient` covers four things:
  - the connection check;
  - the lookup of an application id by service name (the name compared
    ignoring case);
  - the parsing of the routes document, which keeps GET routes only;
  - the HTTP Basic `Authorization` header. That header follows section 2 of
    RFC 7617 and uses the Base64 encoding of section 4 of RFC 4648.

The network is not part of the model. Each HTTP exchange with Contrast is an
input value of type `Exchange`: either an exception, or a status code with the
parsed JSON body. The probes are a function `send` that maps a route's position
in the run and the URL requested for it to an `HttpOutcome`. An `HttpOutcome`
is either a status code or an exception with its message, plus the measured
time. Each route's request is therefore an exchange of its own: two routes that
request the same URL may see different outcomes and times. Wall-clock
durations are inputs too.

Modules:

- `Text` holds `Option`, ASCII `equalsIgnoreCase`, and Java's decimal text of an
  `int` with its parser.
- `Model` holds the records `RouteInfo`, `RouteTestResult`, `TestResponse` and
  `TestRequest`.
- `Placeholders` models `replaceDynamicParameters`. It proves the rewrite against
  a reference definition that substitutes placeholder by placeholder.
- `Base64` is the encoder with a decoder that inverts it.
- `ContrastClient` models the client.
- `RouteTesting` models the service.
- `Scenarios` is a whole run on three concrete routes: two answer 200 and one
  answers 500.

The Java code is imperative: loops that fill lists, builders completed branch by
branch, early returns. Each such Java method is a Dafny `method` with that shape.
The methods are specified in two ways:

- The helpers (`getApplicationId`, `parseRoutesFromResponse`, `retrieveRoutes`,
  `replaceDynamicParameters`, `testSingleRoute`, `testAllRoutes`) are proved
  equal to a specification function. Their properties are proved as lemmas
  about that function.
- `ExecuteRouteTests` states the report it builds field by field, in terms of
  those functions.

Three behaviours of the code are easy to misread, and the model follows the
code in each:

- **Result order.** `testAllRoutes` reads its futures back in the order it
  created them (`RouteTestingService.java:125-127`). The results are therefore
  in route order, not completion order. `CountPassedPermutation` shows that the
  counts would be the same in any order.
- **Placeholder substitution.** It is four global `replaceAll` passes applied
  one after another, not a decision per placeholder. So `{{id}}` becomes `test`
  (`NestedTokenBecomesTest`), and `{}` is left alone (`ExampleEmptyBraces`).
- **Empty route list.** A thread pool is created even when there are no routes
  (`RouteTestingService.java:108`).

## Model

| member | source | states |
|---|---|---|
| Text.DecimalTextRoundTrip | RouteTestingService.java:230 | The decimal text that Java's `"HTTP " + statusCode` appends reads back to the same `int`, negative values included. |
| Text.DecimalTextInjective | RouteTestingService.java:230 | Distinct codes have distinct decimal texts. |
| Placeholders.CloseAt | RouteTestingService.java:210 | The index returned is the first `}` at or after the start, or the end of the text when there is none. This is where a `[^}]+` run must stop. |
| Placeholders.ReplaceDynamicParameters | RouteTestingService.java:203-213 | The four passes give the URL the rewrite defines. No `{`, one or more non-`}`, `}` run is left in the result. A URL without `{` comes back unchanged. |
| Placeholders.NoPlaceholderRemains | RouteTestingService.java:210 | After the last pass no placeholder remains anywhere in the text, including one formed across a replacement. |
| Placeholders.ReplacePlaceholdersNoClose | RouteTestingService.java:210 | The last pass leaves a text without `}` unchanged. |
| Placeholders.SubstitutedTemplate | RouteTestingService.java:203-213 | On any template of literal text, `{name}` placeholders and `{}`, the sequential passes agree with the reference substitution: `{id}` and `{userId}` become `1`, `{uuid}` the sample UUID, any other name `test`, and text and `{}` are kept. |
| Placeholders.SubstitutedWithoutBraces | RouteTestingService.java:203-213 | A URL with no `{` is requested exactly as given. |
| Placeholders.OnePlaceholder | RouteTestingService.java:203-213 | One placeholder between two texts without `{` becomes its sample value, and both texts are kept. |
| Placeholders.ExampleKnownNames | RouteTestingService.java:199-209 | After any prefix without `{`: `{id}` becomes `1`, `{userId}` becomes `1`, and `{uuid}/x` becomes the sample UUID followed by `/x`. |
| Placeholders.ExampleOtherNames | RouteTestingService.java:210 | Any other name becomes `test`, and the names are compared case-sensitively (`{ID}` becomes `test`). |
| Placeholders.ExampleEmptyBraces | RouteTestingService.java:210 | `{}` does not match the last pattern and is kept. |
| Placeholders.NestedTokenBecomesTest | RouteTestingService.java:207-210 | The passes are sequential: `{{id}}` first becomes `{1}`, then `test`. |
| Placeholders.OneBraceUnchanged | RouteTestingService.java:208-209 | The `{userId}` and `{uuid}` passes leave `{1}` alone. |
| Base64.Encode | ContrastSecurityClient.java:223-224 | The encoded length is four characters per started group of three bytes. |
| Base64.EncodeAlphabet | ContrastSecurityClient.java:223-224 | Only alphabet characters and `=` appear, and `=` only in the last two places. |
| Base64.DecodeEncode | ContrastSecurityClient.java:223-224 | Decoding the encoding gives back the bytes. |
| Base64.EncodeInjective | ContrastSecurityClient.java:223-224 | Distinct byte sequences have distinct encodings. |
| ContrastClient.TestConnection | ContrastSecurityClient.java:60-88 | Connected exactly when the applications call answers 200. Any other status, and any exception, give false. |
| ContrastClient.FirstMatchingAppIdIsFirstMatch | ContrastSecurityClient.java:159-177 | The lookup yields the id of the first application whose name equals the service name ignoring case. It yields nothing when there is no such first match, including when a nameless entry comes before it. |
| ContrastClient.GetApplicationId | ContrastSecurityClient.java:143-178 | The loop with early returns yields the id the lookup defines. A non-200 answer, a body without an `applications` array, or an exception all give none. |
| ContrastClient.ParsedNodes | ContrastSecurityClient.java:190-208 | No more routes come out than nodes go in, and every route kept has a verb equal to `GET` ignoring case. |
| ContrastClient.ParsedNodesAppend | ContrastSecurityClient.java:191-207 | The parse is an in-order filter. The routes of `a + b` are those of `a` then those of `b`, unless a GET node without a `route` in `a` ends the parse. |
| ContrastClient.ParsedSingleNode | ContrastSecurityClient.java:192-206 | A non-GET node contributes nothing. A GET node with a route contributes that route, with its verb as written and its signature or the empty text. |
| ContrastClient.ParseRoutesFromResponse | ContrastSecurityClient.java:183-216 | The loop returns the routes the parse defines. The routes collected before an exception are kept. |
| ContrastClient.RetrievedRoutes | ContrastSecurityClient.java:94-138 | Every route handed back is a GET route. |
| ContrastClient.RetrieveRoutes | ContrastSecurityClient.java:94-138 | An unknown application gives no routes. Otherwise the routes are those parsed from a 200 answer of the routes call, and none for any other answer. |
| ContrastClient.AuthorizationHeader | ContrastSecurityClient.java:221-226 | The header is `Basic ` followed by a Base64 text of the stated length that decodes to user name, colon, key. |
| ContrastClient.AuthorizationHeaderRoundTrip | ContrastSecurityClient.java:221-226 | When the user name holds no colon, a server that splits at the first colon recovers the user name and the key. |
| RouteTesting.StatusMessageOfOtherCode | RouteTestingService.java:230 | A code outside the table is labelled `HTTP ` followed by its decimal text, and the code reads back from that text. |
| RouteTesting.StatusMessageRoundTrip | RouteTestingService.java:218-232 | Every code, in the table or not, reads back from its label. |
| RouteTesting.StatusMessageInjective | RouteTestingService.java:218-232 | Distinct codes get distinct labels. |
| RouteTesting.ProbeResult | RouteTestingService.java:142-197 | A result records the template and the unsubstituted URL. It passes exactly when its status is 2xx. A result with an error message has status 0, label `Error`, and is a failure. |
| RouteTesting.TestSingleRoute | RouteTestingService.java:142-197 | The request goes to the substituted URL. A response records its code, label, time and 2xx verdict with no error. An exception records status 0, `Error`, its time, failure and its message. |
| RouteTesting.ProbeAll | RouteTestingService.java:113-127 | There is one result per route, and result `i` is the probe of route `i`. |
| RouteTesting.TestAllRoutes | RouteTestingService.java:106-136 | The loop yields one result per route, in route order, each recording its route's template. |
| RouteTesting.CountPassed | RouteTestingService.java:89 | The count of passes never exceeds the number of results. |
| RouteTesting.CountPassedExtremes | RouteTestingService.java:89-90 | The count equals the number of results exactly when every result passed, and is zero exactly when none did. |
| RouteTesting.CountPassedAppend | RouteTestingService.java:89 | Counting is additive over concatenation. |
| RouteTesting.CountPassedPermutation | RouteTestingService.java:89-90 | Any reordering of the results, such as completion order, gives the same count. |
| RouteTesting.ExecuteRouteTests | RouteTestingService.java:53-101 | A failed connection stops the run with `Failed to connect to Contrast Security` before any route is retrieved. Otherwise the run connects, retrieves and tests. The report carries the request's service and build, one result per retrieved route, passed = number of 2xx results, failed = results − passed, and total = passed + failed. No routes gives an empty report. |
| Scenarios.ScenarioAppId | ContrastSecurityClient.java:164-168 | `orders` finds the application named `ORDERS`, after skipping `Billing`. |
| Scenarios.ScenarioParse | ContrastSecurityClient.java:191-207 | From nodes with no verb, `get`, `GET` and `POST`, the first three routes are kept in order and the POST route is dropped. |
| Scenarios.ScenarioRetrieves | ContrastSecurityClient.java:94-138 | The client hands back the three GET routes of the scenario. |
| Scenarios.ScenarioTemplateUrl | RouteTestingService.java:207 | `/b/{id}` is requested as `/b/1` on any host without `{`. |
| Scenarios.ScenarioResults | RouteTestingService.java:164-174 | `/a` and `/b/{id}` pass; `/c` fails with status 500, labelled `Internal Server Error`. |
| Scenarios.TwoOfThreePass | RouteTestingService.java:89 | Two passes out of three results count as two. |
| Scenarios.SameUrlSeparateProbes | RouteTestingService.java:113-118 | `/x/{id}` and `/x/{userId}` both request `/x/1`, yet the first route may pass within 5 ms while the second fails after 40 ms: each route sends and times its own request. |
| Scenarios.ThreeRouteRun | RouteTestingService.java:53-101 | A full run over `/a`, `/b/{id}` and `/c` reports 3 routes, 2 passed and 1 failed, with the three templates in route order. |

## Left out

- Concurrency: the thread pool of `maxConcurrent` workers and the joining of futures. Routes are probed one after another, and the results are the same values in the same order. `CountPassedPermutation` covers any other order.
- The pool is created outside the `try` at `RouteTestingService.java:108`, so a non-positive `maxConcurrent` would throw out of `testAllRoutes`. This is not modelled, because the pool is not modelled.
- The outer `catch` of `testAllRoutes`: `testSingleRoute` catches every `Exception`, so a future cannot complete with one.
- Real HTTP, DNS, TLS and timeouts are not modelled. Each API exchange is an input value. Each probe's outcome is an input chosen per route position and URL.
- Building the request (`URI.create`, headers, timeout): a URL that `URI.create` rejects is one more `Failed` outcome of `send`.
- The request headers, the Contrast base URL and organisation id, and the format of the routes URL are not modelled.
- Clock readings: response and run durations are inputs, not measurements.
- JSON parsing (Jackson): bodies are given already parsed. A field's text is its `asText()` value. A missing field, or an element that is not an object, is `None`.
- Text.EqualsIgnoreCase: folds ASCII letters only. Java's `equalsIgnoreCase` also folds other Unicode letters.
- ContrastClient.AuthorizationHeader: takes the user name and key as their UTF-8 bytes; the UTF-8 encoding itself is not modelled.
- Logging is not modelled.
- `retryAttempts` is never read by the code, so it has no counterpart.
- The `buildNumber` passed to the parse is unused by the code. It is kept as a parameter and plays no role.
- RouteTesting.CountPassed: passed and failed counts are unbounded. The code's `(int)` cast of a `long` count would only differ beyond 2^31 routes.
- The REST controller, `OpenShiftClient`, `AppConfig` and the `@NotBlank` request validation are not part of this model.
- The example lemmas in `Placeholders` and `Scenarios` are stated for any prefix or host without `{`, rather than for one literal host.
