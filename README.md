# Server monitor: monitoring engine

A Dafny model of the monitoring engine in the backend of the server monitor
(`server-monitor-backend/index.js`). The engine probes the TCP services of
configured servers and MPLS links. It classifies each probe as green, yellow
or red by its latency and rolls the service results up into one status and
average latency per server. It records every result in an in-memory history
of at most 100 points per key. On request, it serves a time-filtered history
with a summary, and a last-10 summary of every configured server and link.

Modules, one per part of the engine:

- `Util` has `Option`, `Result`, `Min` and `Max`.
- `Classifier` covers `getStatusByLatency`, the default thresholds and the
  outcome classification inside `checkConnection`.
- `Rounding` covers `Math.round` of a non-negative ratio, as
  `(2a + b) / (2b)`, and the sums behind the averages.
- `Aggregate` covers the per-server aggregation of `/api/servers/status`
  (services in order, worst-of status, rounded mean of the non-null
  latencies) and the per-link result of `/api/mpls/status`.
- `History` holds `metricsHistory` as the class `MetricsStore`. Its two map
  fields are reassigned by `AddMetricToHistory`, and its invariant keeps
  every history within `Capacity` (100). The module also holds the key
  scheme `${type}-${id}` and the functions that specify one append.
- `Query` covers `/api/metrics/:type/:id` (the `timeRange` filter and the
  summary; the type check is `History.ParseKind`) and the last-10 summary.
- `Endpoints` covers the three handlers. Each one runs over a `MetricsStore`:
  - servers status: a loop over the servers, with an inner loop over their
    services;
  - MPLS status: a loop over the links;
  - metrics summary: two loops that change nothing.

  Each handler is proved against a fold function, which states the new
  store and the returned payload.

Integers are unbounded. Latencies and timestamps are whole milliseconds.

Where `index.js` differs from what a reader of its design would expect, the
model follows the code:

- A server with no services is not probed at all. `Promise.all([])` makes it
  green with a null latency.
- The summaries' average counts a null latency as 0 and divides by all
  points.
- A `timeRange` outside `15m`/`1h`/`6h`/`24h` applies no filter. A missing
  one means `1h`.
- An id that was never recorded gives an empty, all-zero response, not an
  error. Only an unknown `type` is refused.
- Service points are kept in the `servers` map under
  `servers-${server.id}-${service.name}`, so a service and a server can share
  a key (`ServiceKeyCollides`).
- With `warning <= good` there is no yellow band.
- `minLatency` of a range that holds only null latencies is
  `Math.min()` = `Infinity` (`MinLatency.Infinity`). JSON serialises that
  value as `null`.

## Model

| member | source | states |
|---|---|---|
| Classifier.EffectiveThresholds | server-monitor-backend/index.js:246 | without configured thresholds the defaults good=100, warning=300 apply; configured ones are used as given |
| Classifier.StatusByLatency | server-monitor-backend/index.js:245-250 | green iff latency < good; yellow iff good <= latency < warning; red iff latency >= good and >= warning |
| Classifier.StatusByLatencyMonotone | server-monitor-backend/index.js:247-249 | a larger latency never gets a healthier status |
| Classifier.MisorderedThresholdsSkipYellow | server-monitor-backend/index.js:247-249 | when warning <= good no latency is yellow, and every latency >= good is red |
| Classifier.DefaultThresholdExamples | server-monitor-backend/index.js:246-249 | with the defaults: 50 and 99 are green, 100 and 150 yellow, 300 red |
| Classifier.CheckConnection | server-monitor-backend/index.js:212-238 | a connect yields state connected, its latency and the classifier's status; a timeout or error yields that state, a null latency and red; the latency is null exactly when the probe did not connect |
| Classifier.NoLatencyMeansRed | server-monitor-backend/index.js:222-238 | a result without latency is red; a non-red result has a latency |
| Rounding.Round | server-monitor-backend/index.js:288 | the result r is the nearest integer to a/b with halves rounded up: 2br <= 2a+b < 2br+2b |
| Rounding.RoundBetween | server-monitor-backend/index.js:288 | if lo <= a/b <= hi then lo <= round(a/b) <= hi |
| Rounding.RoundExact | server-monitor-backend/index.js:397 | rounding an exact quotient returns it |
| Rounding.SumBounds | server-monitor-backend/index.js:288 | a sum of n values in [lo, hi] lies in [n*lo, n*hi] |
| Aggregate.ServicesStatus | server-monitor-backend/index.js:257-275 | one status entry per service, in the services' order |
| Aggregate.ServicesStatusAt | server-monitor-backend/index.js:257-275 | entry i is service i's name and type with the status and latency of its own probe outcome |
| Aggregate.OverallStatusSpec | server-monitor-backend/index.js:278-283 | red iff some service is red; yellow iff none is red and some is yellow; green iff all are green (so also for no services) |
| Aggregate.OverallIsWorstOf | server-monitor-backend/index.js:278-283 | the overall status equals an independent worst-of fold over the service statuses |
| Aggregate.OverallDominates | server-monitor-backend/index.js:278-283 | the overall status is at least as severe as every service's status |
| Aggregate.ValidLatencies | server-monitor-backend/index.js:286 | there are never more valid latencies than services |
| Aggregate.ValidLatenciesEmpty | server-monitor-backend/index.js:286 | no valid latency exactly when every service latency is null |
| Aggregate.ValidLatenciesSound | server-monitor-backend/index.js:286 | every valid latency is some service's latency |
| Aggregate.ValidLatenciesComplete | server-monitor-backend/index.js:286 | every non-null service latency is among the valid latencies |
| Aggregate.ValidLatenciesMultiplicity | server-monitor-backend/index.js:286 | each latency value occurs among the valid latencies exactly as often as services report it |
| Aggregate.AverageLatencyBounds | server-monitor-backend/index.js:286-289 | the average is null iff every latency is null; otherwise it lies between some measured latency below it and some above it |
| Aggregate.GreenCount | server-monitor-backend/index.js:296 | the operational count never exceeds the number of services |
| Aggregate.AllOperationalIffGreen | server-monitor-backend/index.js:278-296 | all services are operational exactly when the server's overall status is green |
| Aggregate.EvaluateServer | server-monitor-backend/index.js:256-306 | the server entry keeps the server's id and name, has one service entry per service, and carries the worst-of status and the average latency of those entries |
| Aggregate.ServerWithoutServicesIsGreen | server-monitor-backend/index.js:281-289 | a server without services is green with a null latency and an empty service list |
| Aggregate.MixedServerExample | server-monitor-backend/index.js:278-289 | services answering in 40 ms, in 250 ms and timing out give red and latency 145 |
| Aggregate.EvaluateMpls | server-monitor-backend/index.js:322-337 | an MPLS entry keeps the link's id, name and location and carries its probe's status and latency |
| History.ParseKind | server-monitor-backend/index.js:354-356 | a type is accepted iff it is 'servers' or 'mpls', and the accepted kind's name is that type |
| History.ParseKindName | server-monitor-backend/index.js:354 | each kind's name parses back to that kind |
| History.ServiceKeyCollides | server-monitor-backend/index.js:262 | a service key is the servers key of `${server.id}-${service.name}`; server 'a' with service 'b-c' and server 'a-b' with service 'c' share a key |
| History.KeyInjective | server-monitor-backend/index.js:22 | within one kind, equal keys mean equal ids |
| History.Newest | server-monitor-backend/index.js:419 | the newest n elements, or all of them when there are fewer; the length is min(n, length) |
| History.Retain | server-monitor-backend/index.js:33-36 | a kept history never exceeds the capacity of 100 |
| History.RecordedSpec | server-monitor-backend/index.js:21-37 | after one append: the key exists, every history is within capacity, the key's history ends with the new point, has length min(100, n+1) and is the newest part of old history + point (old + point below capacity, old minus its oldest + point at capacity), and every other key is unchanged |
| History.NewestOfNewest | server-monitor-backend/index.js:33-36 | trimming before appending more keeps the same newest points as trimming once after |
| History.RecordAllKeepsNewest | server-monitor-backend/index.js:21-37 | any number of appends to a history within capacity keep exactly the newest 100 of old history + new points |
| History.RecordedEachKey | server-monitor-backend/index.js:21-37 | successive appends to one key of the map leave the append-by-append history of its old history under that key |
| History.RecordedEachKeepsNewest | server-monitor-backend/index.js:21-37 | any number of appends to one key of a map within capacity leave the newest 100 of old history + new points under it; exactly the newest 100 new points once at least 100 were appended |
| History.HundredFiftyAppends | server-monitor-backend/index.js:33-36 | 150 appends to a key without history leave exactly the last 100 of those points, 100 in all |
| History.MetricsStore.constructor | server-monitor-backend/index.js:15-18 | both maps start empty and within capacity |
| History.MetricsStore.AddMetricToHistory | server-monitor-backend/index.js:21-37 | keeps the capacity invariant; the kind's map becomes `Recorded` of the old map (lazily created key, pushed point, oldest shifted out over 100); the other kind's map is untouched |
| Query.RangeWindow | server-monitor-backend/index.js:365-378 | 15m, 1h, 6h and 24h are 900000, 3600000, 21600000 and 86400000 ms; every other value has no window |
| Query.FilterWindow | server-monitor-backend/index.js:367-376 | the filtered history is never longer than the history |
| Query.FilterWindowSpec | server-monitor-backend/index.js:367-376 | the filter result is an order-preserving subsequence of the history; each in-window point occurs as often as in the history, and no other point occurs |
| Query.FilterByRange | server-monitor-backend/index.js:362-378 | an unlisted range returns the whole history; a listed one returns the window filter for its length |
| Query.FilterMembership | server-monitor-backend/index.js:367-376 | a point is in the result iff it is in the history and now - timestamp <= window |
| Query.FilterChronologicalIsSuffix | server-monitor-backend/index.js:367-376 | on a history with non-decreasing timestamps the filter keeps a suffix |
| Query.AllInWindow | server-monitor-backend/index.js:367-376 | when every point is in the window the filter returns the history itself |
| Query.FilterWindowAppend | server-monitor-backend/index.js:367-376 | filtering history + [p] is filtering the history, followed by p when p is in the window |
| Query.FilterKeepsRecentLast | server-monitor-backend/index.js:362-378 | a last point at most 15 minutes old survives every time range and stays last |
| Query.MaxLatencySpec | server-monitor-backend/index.js:390-392 | the maximum is at least every point's latency (null as 0) and equals one of them |
| Query.NonNullLatenciesSpec | server-monitor-backend/index.js:394 | every listed latency is a point's non-null latency, and every non-null latency is listed |
| Query.NonNullLatenciesMultiplicity | server-monitor-backend/index.js:394 | each latency value occurs among the non-null latencies exactly as often as points carry it |
| Query.MinOf | server-monitor-backend/index.js:393-395 | Math.min of no values is Infinity, and only of no values |
| Query.MinOfSpec | server-monitor-backend/index.js:393-395 | a finite minimum is one of the values and no value is below it |
| Query.GreenPoints | server-monitor-backend/index.js:397 | the green count never exceeds the number of points |
| Query.GreenPointsAll | server-monitor-backend/index.js:397 | the green count equals the length iff every point is green |
| Query.GreenPointsNone | server-monitor-backend/index.js:397 | the green count is 0 iff no point is green |
| Query.LatencySumBounded | server-monitor-backend/index.js:388 | if every latency (null as 0) is at most hi, the sum is at most n*hi |
| Query.SummaryBounds | server-monitor-backend/index.js:385-399 | totalPoints is the filtered length, uptime <= 100, avgLatency <= maxLatency, and an empty range gives an all-zero summary |
| Query.UptimeBounds | server-monitor-backend/index.js:396-398 | uptime is at most 100 |
| Query.UptimeExtremes | server-monitor-backend/index.js:396-398 | for 1 to 199 points, uptime is 100 iff all points are green and 0 iff none is |
| Query.SummaryMinLatency | server-monitor-backend/index.js:393-395 | for a non-empty range, minLatency is Infinity iff every latency is null; otherwise it is a point's latency and no non-null latency is below it |
| Query.MetricsQuery | server-monitor-backend/index.js:349-400 | refused iff the type is neither 'servers' nor 'mpls'; otherwise the response echoes id, kind and range (default '1h'), its data is the time-filtered history under `${type}-${id}` (empty if absent), and its summary is that data's summary |
| Query.UnknownIdIsEmpty | server-monitor-backend/index.js:358-359 | for a valid type, an id without history gives a successful response with no data and an all-zero summary |
| Query.RecordedPointIsQueried | server-monitor-backend/index.js:358-378 | a point just recorded, if at most 15 minutes old, is the last data point of the metrics response for its id under every range, and totalPoints counts the data |
| Query.RecentSummarySpec | server-monitor-backend/index.js:419-430 | the last-10 summary is 'unknown' iff the history is empty, otherwise it is the newest point's status; an empty history gives unknown/0/0; uptime <= 100; it looks only at the newest min(10, n) points |
| Endpoints.ServerMetricSpec | server-monitor-backend/index.js:292-297 | a server point counts all services, reports operationalServices <= servicesCount (equal iff the server is green), and carries the server's overall status and average latency |
| Endpoints.ServerPointIsLast | server-monitor-backend/index.js:292-297 | after a server's service points and its own point, the server's history is within capacity and ends with the server's point |
| Endpoints.RecordServicesBounded | server-monitor-backend/index.js:262-266 | recording a server's service points keeps every history within capacity |
| Endpoints.ProbeServices | server-monitor-backend/index.js:257-275 | returns the service entries of the server for its outcomes, records one point per service in order under its service key, keeps the invariant and leaves the MPLS map untouched |
| Endpoints.ProbeServer | server-monitor-backend/index.js:256-306 | returns the server's aggregated entry, records the service points and then the server's own point, keeps the invariant and leaves the MPLS map untouched |
| Endpoints.EvaluateServers | server-monitor-backend/index.js:255-308 | the pass over the first n servers has n entries |
| Endpoints.EvaluateServersAt | server-monitor-backend/index.js:255-308 | entry i of the servers pass is server i aggregated on its own outcomes |
| Endpoints.ServersStatus | server-monitor-backend/index.js:253-310 | classifies against the configured thresholds or the defaults; returns one aggregated entry per server in registry order and leaves the servers map as the in-order record of every server's service points and server point; keeps the invariant; MPLS map untouched |
| Endpoints.EvaluateLinks | server-monitor-backend/index.js:320-339 | the pass over the first n links has n entries |
| Endpoints.EvaluateLinksAt | server-monitor-backend/index.js:320-339 | entry i of the MPLS pass is link i evaluated on its own outcome |
| Endpoints.MplsStatusPass | server-monitor-backend/index.js:318-341 | classifies against the configured thresholds or the defaults; returns one entry per link in registry order, records one point per link in order in the MPLS map, keeps the invariant; servers map untouched |
| Endpoints.SummarizeRecent | server-monitor-backend/index.js:419-430 | the last-10 summary of a history: unknown iff empty, otherwise the newest point's status; uptime <= 100 |
| Endpoints.ServerSummaries | server-monitor-backend/index.js:416-432 | the first n server entries number n |
| Endpoints.MplsSummaries | server-monitor-backend/index.js:435-452 | the first n link entries number n |
| Endpoints.ServerSummariesAt | server-monitor-backend/index.js:416-432 | entry i carries server i's id and name and the last-10 summary of the history under `servers-${id}` |
| Endpoints.MplsSummariesAt | server-monitor-backend/index.js:435-452 | entry i carries link i's id, name and location and the last-10 summary of the history under `mpls-${id}` |
| Endpoints.SummarizeServer | server-monitor-backend/index.js:416-431 | one server's summary entry, read from the store |
| Endpoints.SummarizeMpls | server-monitor-backend/index.js:435-451 | one link's summary entry, read from the store |
| Endpoints.MetricsSummary | server-monitor-backend/index.js:408-454 | returns, in registry order, the summary entry of every configured server and link, and changes nothing |

## Left out

- HTTP glue is not modelled: Express routing, CORS, JSON encoding, and the 400/500 responses and `try`/`catch` (index.js:1-12, 253, 310-313, 341-345, 380-384, 400-404, 454-458, 488-495). The refused type is kept as `Err(InvalidType)`.
- Loading `config.json` and the built-in fallback registry (index.js:39-202) are file I/O and static data. Servers, links and thresholds are parameters. Non-numeric threshold values are not modelled, and neither is the `connectionTimeout` setting.
- The socket probe is not modelled: `net.Socket` connect/timeout/error and the `performance.now()` timing with its rounding (index.js:205-242). A probe is the input `ProbeOutcome` (connected after a whole number of milliseconds, timed out, or errored). One outcome is given per service or link. A port outside 0..65535 is not modelled either. There `socket.connect` (index.js:240) throws synchronously, which rejects the service's promise and with it `Promise.all`. The handler then answers 500 (index.js:311-313) and never records that server's own point (index.js:292); points recorded before the throw stay. `ProbeOutcome` has no such case.
- The clock is the parameter `now`. `new Date()` is read once per append in the code; the model stamps all points of one pass with the same `now`.
- `Promise.all` concurrency is modelled as a sequential pass: services of a server in order, then the server's point, then the next server. The results keep registry order either way. Only the order of appends to a colliding key could differ.
- Query.Uptime: JavaScript computes `Math.round((g / n) * 100)` in floating point; the model uses the exact `Round(100 g, n)`. The two can differ only where floating-point error moves a value that is exactly half-way.
- The POST handlers that replace the configuration, `/api/config`, `/api/health` and the server start-up (index.js:462-495) are left out. They only reassign or return configuration and never touch the history.
- The frontend (`server-monitor-frontend/`) is presentation only and is not part of this model.
