/**
 * The request handlers that tie probing, aggregation and the history store
 * together: `/api/servers/status`, `/api/mpls/status` and
 * `/api/metrics/summary`. Probe outcomes and the clock are inputs.
 */
module Endpoints {
  import opened Util
  import opened Classifier
  import opened Aggregate
  import opened History
  import opened Query

  /** The metric recorded for one probed service. */
  function ServiceMetric(s: ServiceStatus): Metric
  {
    Metric(s.latency, s.status, ServiceDetail(s.name))
  }

  /** The metric recorded for a server after all its services were probed. */
  function ServerMetric(st: ServerStatus): Metric
  {
    Metric(st.latency, st.status, ServerDetail(|st.services|, GreenCount(st.services)))
  }

  /**
   * A server's history point counts every service, never reports more
   * operational (green) services than it has, reports all of them
   * operational exactly when the server is green, and carries the
   * server's overall status and average latency.
   */
  lemma {:induction false} ServerMetricSpec(server: Server, outcomes: seq<ProbeOutcome>, t: Thresholds)
    requires |outcomes| == |server.services|
    ensures var st := EvaluateServer(server, outcomes, t);
            var d := ServerMetric(st).detail;
            d.servicesCount == |server.services| &&
            d.operationalServices <= d.servicesCount &&
            (d.operationalServices == d.servicesCount <==> st.status == Green) &&
            ServerMetric(st).status == OverallStatus(st.services) &&
            ServerMetric(st).latency == AverageLatency(st.services)
  {
    AllOperationalIffGreen(EvaluateServer(server, outcomes, t).services);
  }

  /** The 'servers' map after recording the given service statuses of one server, in order. */
  function RecordServices(m: map<string, seq<MetricPoint>>, serverId: string, ss: seq<ServiceStatus>, now: int)
    : map<string, seq<MetricPoint>>
    decreases |ss|
  {
    if ss == [] then m
    else
      var n := |ss| - 1;
      Recorded(RecordServices(m, serverId, ss[..n], now), Key(Servers, ServiceId(serverId, ss[n].name)),
               Stamp(ServiceMetric(ss[n]), now))
  }

  /** The 'servers' map after one server's service points and then its own point. */
  function RecordServer(m: map<string, seq<MetricPoint>>, st: ServerStatus, now: int): map<string, seq<MetricPoint>>
  {
    Recorded(RecordServices(m, st.id, st.services, now), Key(Servers, st.id), Stamp(ServerMetric(st), now))
  }

  /** The 'servers' map after a whole pass, server by server. */
  function RecordServersPass(m: map<string, seq<MetricPoint>>, sts: seq<ServerStatus>, now: int)
    : map<string, seq<MetricPoint>>
    decreases |sts|
  {
    if sts == [] then m
    else
      var n := |sts| - 1;
      RecordServer(RecordServersPass(m, sts[..n], now), sts[n], now)
  }

  /** The 'mpls' map after recording each link's status in order. */
  function RecordMplsPass(m: map<string, seq<MetricPoint>>, sts: seq<MplsStatus>, now: int)
    : map<string, seq<MetricPoint>>
    decreases |sts|
  {
    if sts == [] then m
    else
      var n := |sts| - 1;
      var st := sts[n];
      Recorded(RecordMplsPass(m, sts[..n], now), Key(Mpls, st.id),
               Stamp(Metric(st.latency, st.status, MplsDetail(st.location)), now))
  }

  /**
   * Recording one server (its service points, then its own point) leaves
   * the server's own key within capacity and holding the server's point
   * last. A later record in the same pass can still append to that key: a
   * service of a later server whose `${id}-${name}` spells it, or a
   * repeated server id.
   */
  lemma {:induction false} ServerPointIsLast(m: map<string, seq<MetricPoint>>, st: ServerStatus, now: int)
    requires Bounded(m)
    ensures var h := RecordServer(m, st, now)[Key(Servers, st.id)];
            |h| <= Capacity && h[|h| - 1] == Stamp(ServerMetric(st), now)
  {
    RecordServicesBounded(m, st.id, st.services, now);
    RecordedSpec(RecordServices(m, st.id, st.services, now), Key(Servers, st.id), Stamp(ServerMetric(st), now));
  }

  lemma {:induction false} RecordServicesBounded(m: map<string, seq<MetricPoint>>, serverId: string,
                                                 ss: seq<ServiceStatus>, now: int)
    requires Bounded(m)
    ensures Bounded(RecordServices(m, serverId, ss, now))
    decreases |ss|
  {
    if ss != [] {
      var n := |ss| - 1;
      RecordServicesBounded(m, serverId, ss[..n], now);
      RecordedSpec(RecordServices(m, serverId, ss[..n], now), Key(Servers, ServiceId(serverId, ss[n].name)),
                   Stamp(ServiceMetric(ss[n]), now));
    }
  }

  lemma RecordServicesStep(m: map<string, seq<MetricPoint>>, serverId: string, ss: seq<ServiceStatus>,
                           s: ServiceStatus, now: int)
    ensures RecordServices(m, serverId, ss + [s], now)
            == Recorded(RecordServices(m, serverId, ss, now), Key(Servers, ServiceId(serverId, s.name)),
                        Stamp(ServiceMetric(s), now))
  {
    assert (ss + [s])[..|ss|] == ss;
  }

  /**
   * The services of one server of `/api/servers/status`, probed in order
   * (outcome `outcomes[j]` for service j), each service's point recorded
   * as its probe settles.
   */
  method ProbeServices(store: MetricsStore, server: Server, outcomes: seq<ProbeOutcome>, t: Thresholds, now: int)
    returns (servicesStatus: seq<ServiceStatus>)
    requires store.Valid()
    requires |outcomes| == |server.services|
    modifies store
    ensures store.Valid()
    ensures servicesStatus == ServicesStatus(server.services, outcomes, t)
    ensures store.servers == RecordServices(old(store.servers), server.id, servicesStatus, now)
    ensures store.mpls == old(store.mpls)
  {
    servicesStatus := [];
    for j := 0 to |server.services|
      invariant store.Valid()
      invariant |servicesStatus| == j
      invariant forall k :: 0 <= k < j ==> servicesStatus[k] == ServiceStatusOf(server.services[k], outcomes[k], t)
      invariant store.servers == RecordServices(old(store.servers), server.id, servicesStatus, now)
      invariant store.mpls == old(store.mpls)
    {
      var service := server.services[j];
      var result := CheckConnection(outcomes[j], t);
      var entry := ServiceStatus(service.name, service.serviceType, result.statusCode, result.latency);
      store.AddMetricToHistory(Servers, ServiceId(server.id, service.name), ServiceMetric(entry), now);
      RecordServicesStep(old(store.servers), server.id, servicesStatus, entry, now);
      servicesStatus := servicesStatus + [entry];
    }
    forall k | 0 <= k < |servicesStatus|
      ensures servicesStatus[k] == ServicesStatus(server.services, outcomes, t)[k]
    {
      ServicesStatusAt(server.services, outcomes, t, k);
    }
  }

  /** One server of `/api/servers/status`: its services, then the server's own point. */
  method ProbeServer(store: MetricsStore, server: Server, outcomes: seq<ProbeOutcome>, t: Thresholds, now: int)
    returns (st: ServerStatus)
    requires store.Valid()
    requires |outcomes| == |server.services|
    modifies store
    ensures store.Valid()
    ensures st == EvaluateServer(server, outcomes, t)
    ensures store.servers == RecordServer(old(store.servers), st, now)
    ensures store.mpls == old(store.mpls)
  {
    var servicesStatus := ProbeServices(store, server, outcomes, t, now);
    var overall := OverallStatus(servicesStatus);
    var avgLatency := AverageLatency(servicesStatus);
    st := ServerStatus(server.id, server.name, overall, avgLatency, servicesStatus);
    store.AddMetricToHistory(Servers, server.id, ServerMetric(st), now);
  }

  /**
   * The statuses of the first `n` servers of a pass, in registry order
   * (`n == |servers|` is the whole pass).
   */
  function EvaluateServers(servers: seq<Server>, outcomes: seq<seq<ProbeOutcome>>, t: Thresholds, n: nat)
    : (r: seq<ServerStatus>)
    requires |outcomes| == |servers| && n <= |servers|
    requires forall i :: 0 <= i < |servers| ==> |outcomes[i]| == |servers[i].services|
    ensures |r| == n
  {
    if n == 0 then []
    else EvaluateServers(servers, outcomes, t, n - 1) + [EvaluateServer(servers[n - 1], outcomes[n - 1], t)]
  }

  /** Entry i of a servers pass is server i evaluated on its own outcomes. */
  lemma {:induction false} EvaluateServersAt(servers: seq<Server>, outcomes: seq<seq<ProbeOutcome>>, t: Thresholds,
                                             n: nat, i: nat)
    requires |outcomes| == |servers| && n <= |servers|
    requires forall k :: 0 <= k < |servers| ==> |outcomes[k]| == |servers[k].services|
    requires i < n
    ensures EvaluateServers(servers, outcomes, t, n)[i] == EvaluateServer(servers[i], outcomes[i], t)
    decreases n
  {
    if i < n - 1 {
      EvaluateServersAt(servers, outcomes, t, n - 1, i);
    }
  }

  lemma RecordServersPassStep(m: map<string, seq<MetricPoint>>, sts: seq<ServerStatus>, st: ServerStatus, now: int)
    ensures RecordServersPass(m, sts + [st], now) == RecordServer(RecordServersPass(m, sts, now), st, now)
  {
    assert (sts + [st])[..|sts|] == sts;
  }

  /**
   * `/api/servers/status`: probe every service of every server (outcome
   * `outcomes[i][j]` for service j of server i) against the configured
   * thresholds or the defaults, record the points, and return the statuses
   * in registry order.
   */
  method ServersStatus(store: MetricsStore, servers: seq<Server>, outcomes: seq<seq<ProbeOutcome>>,
                       configured: Option<Thresholds>, now: int)
    returns (statuses: seq<ServerStatus>)
    requires store.Valid()
    requires |outcomes| == |servers|
    requires forall i :: 0 <= i < |servers| ==> |outcomes[i]| == |servers[i].services|
    modifies store
    ensures store.Valid()
    ensures statuses == EvaluateServers(servers, outcomes, EffectiveThresholds(configured), |servers|)
    ensures store.servers == RecordServersPass(old(store.servers), statuses, now)
    ensures store.mpls == old(store.mpls)
  {
    var t := EffectiveThresholds(configured);
    statuses := [];
    for i := 0 to |servers|
      invariant store.Valid()
      invariant statuses == EvaluateServers(servers, outcomes, t, i)
      invariant store.servers == RecordServersPass(old(store.servers), statuses, now)
      invariant store.mpls == old(store.mpls)
    {
      var st := ProbeServer(store, servers[i], outcomes[i], t, now);
      RecordServersPassStep(old(store.servers), statuses, st, now);
      statuses := statuses + [st];
    }
  }

  /** The statuses of the first `n` links of an MPLS pass, in registry order. */
  function EvaluateLinks(links: seq<MplsLink>, outcomes: seq<ProbeOutcome>, t: Thresholds, n: nat)
    : (r: seq<MplsStatus>)
    requires |outcomes| == |links| && n <= |links|
    ensures |r| == n
  {
    if n == 0 then []
    else EvaluateLinks(links, outcomes, t, n - 1) + [EvaluateMpls(links[n - 1], outcomes[n - 1], t)]
  }

  /** Entry i of an MPLS pass is link i evaluated on its own outcome. */
  lemma {:induction false} EvaluateLinksAt(links: seq<MplsLink>, outcomes: seq<ProbeOutcome>, t: Thresholds,
                                           n: nat, i: nat)
    requires |outcomes| == |links| && i < n <= |links|
    ensures EvaluateLinks(links, outcomes, t, n)[i] == EvaluateMpls(links[i], outcomes[i], t)
    decreases n
  {
    if i < n - 1 {
      EvaluateLinksAt(links, outcomes, t, n - 1, i);
    }
  }

  lemma RecordMplsPassStep(m: map<string, seq<MetricPoint>>, sts: seq<MplsStatus>, st: MplsStatus, now: int)
    ensures RecordMplsPass(m, sts + [st], now)
            == Recorded(RecordMplsPass(m, sts, now), Key(Mpls, st.id),
                        Stamp(Metric(st.latency, st.status, MplsDetail(st.location)), now))
  {
    assert (sts + [st])[..|sts|] == sts;
  }

  /**
   * `/api/mpls/status`: probe each link once against the configured
   * thresholds or the defaults, record its point, and return the statuses
   * in registry order.
   */
  method MplsStatusPass(store: MetricsStore, links: seq<MplsLink>, outcomes: seq<ProbeOutcome>,
                        configured: Option<Thresholds>, now: int)
    returns (statuses: seq<MplsStatus>)
    requires store.Valid()
    requires |outcomes| == |links|
    modifies store
    ensures store.Valid()
    ensures statuses == EvaluateLinks(links, outcomes, EffectiveThresholds(configured), |links|)
    ensures store.mpls == RecordMplsPass(old(store.mpls), statuses, now)
    ensures store.servers == old(store.servers)
  {
    var t := EffectiveThresholds(configured);
    statuses := [];
    for i := 0 to |links|
      invariant store.Valid()
      invariant statuses == EvaluateLinks(links, outcomes, t, i)
      invariant store.mpls == RecordMplsPass(old(store.mpls), statuses, now)
      invariant store.servers == old(store.servers)
    {
      var link := links[i];
      var result := CheckConnection(outcomes[i], t);
      var st := MplsStatus(link.id, link.name, result.statusCode, result.latency, link.location);
      store.AddMetricToHistory(Mpls, link.id, Metric(st.latency, st.status, MplsDetail(st.location)), now);
      RecordMplsPassStep(old(store.mpls), statuses, st, now);
      statuses := statuses + [st];
    }
  }

  /** One server entry of `/api/metrics/summary`. */
  datatype ServerSummary = ServerSummary(id: string, name: string, recent: RecentSummary)

  /** One MPLS entry of `/api/metrics/summary`. */
  datatype MplsSummary = MplsSummary(id: string, name: string, location: string, recent: RecentSummary)

  /**
   * The last-10 summary of one history, computed step by step as the
   * handler's `forEach` body does; `RecentSummaryOf` is its specification.
   */
  method SummarizeRecent(history: seq<MetricPoint>) returns (r: RecentSummary)
    ensures r == RecentSummaryOf(history)
    ensures r.currentStatus == Unknown <==> history == []
    ensures history != [] ==> r.currentStatus == Known(history[|history| - 1].status)
    ensures r.uptime <= 100
  {
    var recent := Recent(history);
    var current := if |recent| > 0 then Known(recent[|recent| - 1].status) else Unknown;
    r := RecentSummary(current, AvgLatency(recent), Uptime(recent));
    RecentSummarySpec(history);
  }

  /** The summary entry of one configured server: the last-10 summary of its own key. */
  function ServerSummaryOf(m: map<string, seq<MetricPoint>>, server: Server): ServerSummary
  {
    ServerSummary(server.id, server.name, RecentSummaryOf(Lookup(m, Key(Servers, server.id))))
  }

  /** The summary entry of one configured MPLS link. */
  function MplsSummaryOf(m: map<string, seq<MetricPoint>>, link: MplsLink): MplsSummary
  {
    MplsSummary(link.id, link.name, link.location, RecentSummaryOf(Lookup(m, Key(Mpls, link.id))))
  }

  /** The first `n` server entries of `/api/metrics/summary`, in registry order. */
  function ServerSummaries(m: map<string, seq<MetricPoint>>, servers: seq<Server>, n: nat): (r: seq<ServerSummary>)
    requires n <= |servers|
    ensures |r| == n
  {
    if n == 0 then []
    else ServerSummaries(m, servers, n - 1) + [ServerSummaryOf(m, servers[n - 1])]
  }

  /** The first `n` MPLS entries of `/api/metrics/summary`, in registry order. */
  function MplsSummaries(m: map<string, seq<MetricPoint>>, links: seq<MplsLink>, n: nat): (r: seq<MplsSummary>)
    requires n <= |links|
    ensures |r| == n
  {
    if n == 0 then []
    else MplsSummaries(m, links, n - 1) + [MplsSummaryOf(m, links[n - 1])]
  }

  /**
   * Entry i of the servers part is server i's id and name with the last-10
   * summary of the history under `servers-${id}`.
   */
  lemma {:induction false} ServerSummariesAt(m: map<string, seq<MetricPoint>>, servers: seq<Server>, n: nat, i: nat)
    requires i < n <= |servers|
    ensures ServerSummaries(m, servers, n)[i].id == servers[i].id
    ensures ServerSummaries(m, servers, n)[i].name == servers[i].name
    ensures ServerSummaries(m, servers, n)[i].recent == RecentSummaryOf(Lookup(m, Key(Servers, servers[i].id)))
    decreases n
  {
    if i < n - 1 {
      ServerSummariesAt(m, servers, n - 1, i);
    }
  }

  /** Entry i of the MPLS part is link i with the last-10 summary of the history under `mpls-${id}`. */
  lemma {:induction false} MplsSummariesAt(m: map<string, seq<MetricPoint>>, links: seq<MplsLink>, n: nat, i: nat)
    requires i < n <= |links|
    ensures MplsSummaries(m, links, n)[i].id == links[i].id
    ensures MplsSummaries(m, links, n)[i].name == links[i].name
    ensures MplsSummaries(m, links, n)[i].location == links[i].location
    ensures MplsSummaries(m, links, n)[i].recent == RecentSummaryOf(Lookup(m, Key(Mpls, links[i].id)))
    decreases n
  {
    if i < n - 1 {
      MplsSummariesAt(m, links, n - 1, i);
    }
  }

  /** One server's summary entry, read from the store; specified by `ServerSummaryOf`. */
  method SummarizeServer(store: MetricsStore, server: Server) returns (e: ServerSummary)
    ensures e == ServerSummaryOf(store.servers, server)
  {
    var history := Lookup(store.servers, Key(Servers, server.id));
    var recent := SummarizeRecent(history);
    e := ServerSummary(server.id, server.name, recent);
  }

  /** One link's summary entry, read from the store; specified by `MplsSummaryOf`. */
  method SummarizeMpls(store: MetricsStore, link: MplsLink) returns (e: MplsSummary)
    ensures e == MplsSummaryOf(store.mpls, link)
  {
    var history := Lookup(store.mpls, Key(Mpls, link.id));
    var recent := SummarizeRecent(history);
    e := MplsSummary(link.id, link.name, link.location, recent);
  }

  /**
   * `/api/metrics/summary`: for every configured server and link, in
   * registry order, the last-10 summary of the history under its own key.
   * Service histories are not summarised.
   */
  method MetricsSummary(store: MetricsStore, servers: seq<Server>, links: seq<MplsLink>)
    returns (serverSummaries: seq<ServerSummary>, mplsSummaries: seq<MplsSummary>)
    ensures serverSummaries == ServerSummaries(store.servers, servers, |servers|)
    ensures mplsSummaries == MplsSummaries(store.mpls, links, |links|)
  {
    serverSummaries := [];
    for i := 0 to |servers|
      invariant serverSummaries == ServerSummaries(store.servers, servers, i)
    {
      var entry := SummarizeServer(store, servers[i]);
      serverSummaries := serverSummaries + [entry];
    }
    mplsSummaries := [];
    for i := 0 to |links|
      invariant mplsSummaries == MplsSummaries(store.mpls, links, i)
    {
      var entry := SummarizeMpls(store, links[i]);
      mplsSummaries := mplsSummaries + [entry];
    }
  }
}
