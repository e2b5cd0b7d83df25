/**
 * Per-server and per-MPLS-link aggregation of probe results (the bodies of
 * the `/api/servers/status` and `/api/mpls/status` handlers, without the
 * history writes, which live in the Endpoints module).
 */
module Aggregate {
  import opened Util
  import opened Classifier
  import opened Rounding

  /** A configured service of a server: name, TCP port and protocol label. */
  datatype Service = Service(name: string, port: nat, serviceType: string)

  /** A configured server with its ordered services. */
  datatype Server = Server(id: string, name: string, ip: string, services: seq<Service>)

  /** A configured MPLS link, probed on a single port. */
  datatype MplsLink = MplsLink(id: string, name: string, ip: string, port: nat, location: string)

  /** One entry of a server's `services` list in the status payload. */
  datatype ServiceStatus = ServiceStatus(name: string, serviceType: string, status: Status, latency: Option<nat>)

  /** One server of the status payload (its `type: 'Servidor'` tag is constant and not kept). */
  datatype ServerStatus = ServerStatus(id: string, name: string, status: Status, latency: Option<nat>,
                                       services: seq<ServiceStatus>)

  /** One MPLS link of the status payload. */
  datatype MplsStatus = MplsStatus(id: string, name: string, status: Status, latency: Option<nat>,
                                   location: string)

  /** The status entry for one probed service. */
  function ServiceStatusOf(svc: Service, o: ProbeOutcome, t: Thresholds): ServiceStatus
  {
    var res := CheckConnection(o, t);
    ServiceStatus(svc.name, svc.serviceType, res.statusCode, res.latency)
  }

  /**
   * `server.services.map(...)` under `Promise.all`: probe outcome `outcomes[i]`
   * belongs to `services[i]`, and the results keep the services' order.
   */
  function ServicesStatus(services: seq<Service>, outcomes: seq<ProbeOutcome>, t: Thresholds): (r: seq<ServiceStatus>)
    requires |outcomes| == |services|
    ensures |r| == |services|
  {
    if services == [] then []
    else [ServiceStatusOf(services[0], outcomes[0], t)] + ServicesStatus(services[1..], outcomes[1..], t)
  }

  /** Entry i of the service statuses is service i classified on its own outcome. */
  lemma {:induction false} ServicesStatusAt(services: seq<Service>, outcomes: seq<ProbeOutcome>, t: Thresholds, i: nat)
    requires |outcomes| == |services| && i < |services|
    ensures ServicesStatus(services, outcomes, t)[i] == ServiceStatusOf(services[i], outcomes[i], t)
  {
    if i > 0 {
      ServicesStatusAt(services[1..], outcomes[1..], t, i - 1);
    }
  }

  predicate HasStatus(ss: seq<ServiceStatus>, s: Status)
  {
    exists i :: 0 <= i < |ss| && ss[i].status == s
  }

  /** `hasError` / `hasWarning` and the `overallStatus` they select. */
  function OverallStatus(ss: seq<ServiceStatus>): Status
  {
    if HasStatus(ss, Red) then Red
    else if HasStatus(ss, Yellow) then Yellow
    else Green
  }

  /** Red if any service is red, else yellow if any is yellow, else green (also for no services). */
  lemma OverallStatusSpec(ss: seq<ServiceStatus>)
    ensures OverallStatus(ss) == Red <==> exists i :: 0 <= i < |ss| && ss[i].status == Red
    ensures OverallStatus(ss) == Yellow <==>
              (forall i :: 0 <= i < |ss| ==> ss[i].status != Red) && exists i :: 0 <= i < |ss| && ss[i].status == Yellow
    ensures OverallStatus(ss) == Green <==> forall i :: 0 <= i < |ss| ==> ss[i].status == Green
  {
  }

  /** The worse of two statuses. */
  function Worse(a: Status, b: Status): Status
  {
    if Severity(a) >= Severity(b) then a else b
  }

  /** Reference definition of worst-of: fold `Worse` over the services, starting from green. */
  function WorstOf(ss: seq<ServiceStatus>): Status
  {
    if ss == [] then Green else Worse(ss[0].status, WorstOf(ss[1..]))
  }

  /** The overall status is the worst service status (green for no services). */
  lemma {:induction false} OverallIsWorstOf(ss: seq<ServiceStatus>)
    ensures OverallStatus(ss) == WorstOf(ss)
  {
    if ss != [] {
      OverallIsWorstOf(ss[1..]);
      assert forall i :: 1 <= i < |ss| ==> ss[i] == ss[1..][i - 1];
      assert HasStatus(ss, Red) <==> ss[0].status == Red || HasStatus(ss[1..], Red);
      assert HasStatus(ss, Yellow) <==> ss[0].status == Yellow || HasStatus(ss[1..], Yellow);
    }
  }

  /** The overall status is at least as severe as every service's status. */
  lemma OverallDominates(ss: seq<ServiceStatus>, i: nat)
    requires i < |ss|
    ensures Severity(ss[i].status) <= Severity(OverallStatus(ss))
  {
    OverallStatusSpec(ss);
  }

  /**
   * The latencies of the services that answered, in service order (`validLatencies`).
   * The same filter over history points is `Query.NonNullLatencies`; it is
   * kept apart because the two work on different records.
   */
  function ValidLatencies(ss: seq<ServiceStatus>): (r: seq<nat>)
    ensures |r| <= |ss|
  {
    if ss == [] then []
    else
      var rest := ValidLatencies(ss[1..]);
      match ss[0].latency
      case Some(ms) => [ms] + rest
      case None => rest
  }

  /** No latency is valid exactly when every service's latency is null. */
  lemma {:induction false} ValidLatenciesEmpty(ss: seq<ServiceStatus>)
    ensures |ValidLatencies(ss)| == 0 <==> forall i :: 0 <= i < |ss| ==> ss[i].latency.None?
  {
    if ss != [] {
      ValidLatenciesEmpty(ss[1..]);
      assert forall i :: 1 <= i < |ss| ==> ss[i] == ss[1..][i - 1];
    }
  }

  /** Every valid latency is the latency of some service. */
  lemma {:induction false} ValidLatenciesSound(ss: seq<ServiceStatus>)
    ensures forall k :: 0 <= k < |ValidLatencies(ss)| ==>
              exists i :: 0 <= i < |ss| && ss[i].latency == Some(ValidLatencies(ss)[k])
  {
    if ss != [] {
      ValidLatenciesSound(ss[1..]);
      var r, rest := ValidLatencies(ss), ValidLatencies(ss[1..]);
      if ss[0].latency.Some? {
        assert r == [ss[0].latency.value] + rest;
        forall k | 0 <= k < |r| ensures exists i :: 0 <= i < |ss| && ss[i].latency == Some(r[k]) {
          if k == 0 {
            assert ss[0].latency == Some(r[0]);
          } else {
            assert r[k] == rest[k - 1];
            var j :| 0 <= j < |ss[1..]| && ss[1..][j].latency == Some(rest[k - 1]);
            assert ss[j + 1].latency == Some(r[k]);
          }
        }
      } else {
        assert r == rest;
        forall k | 0 <= k < |r| ensures exists i :: 0 <= i < |ss| && ss[i].latency == Some(r[k]) {
          var j :| 0 <= j < |ss[1..]| && ss[1..][j].latency == Some(rest[k]);
          assert ss[j + 1].latency == Some(r[k]);
        }
      }
    } else {
      assert |ValidLatencies(ss)| == 0;
    }
  }

  /** Every non-null service latency is among the valid latencies. */
  lemma {:induction false} ValidLatenciesComplete(ss: seq<ServiceStatus>)
    ensures forall i :: 0 <= i < |ss| && ss[i].latency.Some? ==> ss[i].latency.value in ValidLatencies(ss)
  {
    if ss != [] {
      ValidLatenciesComplete(ss[1..]);
      assert forall i :: 1 <= i < |ss| ==> ss[i] == ss[1..][i - 1];
    }
  }

  /** The number of services whose latency is `ms`. */
  function LatencyCount(ss: seq<ServiceStatus>, ms: nat): nat
  {
    if ss == [] then 0 else (if ss[0].latency == Some(ms) then 1 else 0) + LatencyCount(ss[1..], ms)
  }

  /** Each latency occurs among the valid latencies exactly as often as the services report it. */
  lemma {:induction false} ValidLatenciesMultiplicity(ss: seq<ServiceStatus>, ms: nat)
    ensures multiset(ValidLatencies(ss))[ms] == LatencyCount(ss, ms)
  {
    if ss != [] {
      ValidLatenciesMultiplicity(ss[1..], ms);
    }
  }

  /** `avgLatency`: the rounded mean of the non-null latencies, or null if there are none. */
  function AverageLatency(ss: seq<ServiceStatus>): Option<nat>
  {
    var v := ValidLatencies(ss);
    if |v| > 0 then Some(Round(Sum(v), |v|)) else None
  }

  /**
   * The average is null exactly when no service has a latency; otherwise it
   * lies between the smallest and the largest measured latency.
   */
  lemma {:induction false} AverageLatencyBounds(ss: seq<ServiceStatus>)
    ensures AverageLatency(ss).None? <==> forall i :: 0 <= i < |ss| ==> ss[i].latency.None?
    ensures AverageLatency(ss).Some? ==>
      (exists i :: 0 <= i < |ss| && ss[i].latency.Some? && ss[i].latency.value <= AverageLatency(ss).value) &&
      (exists j :: 0 <= j < |ss| && ss[j].latency.Some? && AverageLatency(ss).value <= ss[j].latency.value)
  {
    var v := ValidLatencies(ss);
    ValidLatenciesEmpty(ss);
    ValidLatenciesSound(ss);
    ValidLatenciesComplete(ss);
    if |v| > 0 {
      var lo, hi := MinIndex(v), MaxIndex(v);
      SumBounds(v, v[lo], v[hi]);
      RoundBetween(Sum(v), |v|, v[lo], v[hi]);
    }
  }

  /** Index of a smallest element. */
  function MinIndex(v: seq<nat>): (k: nat)
    requires |v| > 0
    ensures k < |v| && forall i :: 0 <= i < |v| ==> v[k] <= v[i]
  {
    if |v| == 1 then 0
    else
      var k := MinIndex(v[1..]);
      if v[0] <= v[1..][k] then 0 else k + 1
  }

  /** Index of a largest element. */
  function MaxIndex(v: seq<nat>): (k: nat)
    requires |v| > 0
    ensures k < |v| && forall i :: 0 <= i < |v| ==> v[i] <= v[k]
  {
    if |v| == 1 then 0
    else
      var k := MaxIndex(v[1..]);
      if v[0] >= v[1..][k] then 0 else k + 1
  }

  /**
   * The number of green services (`operationalServices`). `Query.GreenPoints`
   * is the same count over history points, a different record type.
   */
  function GreenCount(ss: seq<ServiceStatus>): (n: nat)
    ensures n <= |ss|
  {
    if ss == [] then 0 else (if ss[0].status == Green then 1 else 0) + GreenCount(ss[1..])
  }

  /** All services are operational exactly when the server is green. */
  lemma {:induction false} AllOperationalIffGreen(ss: seq<ServiceStatus>)
    ensures GreenCount(ss) == |ss| <==> OverallStatus(ss) == Green
  {
    OverallStatusSpec(ss);
    if ss != [] {
      AllOperationalIffGreen(ss[1..]);
      assert forall i :: 1 <= i < |ss| ==> ss[i] == ss[1..][i - 1];
      assert (forall i :: 0 <= i < |ss| ==> ss[i].status == Green) <==>
             ss[0].status == Green && forall i :: 0 <= i < |ss[1..]| ==> ss[1..][i].status == Green;
    }
  }

  /** The aggregated status of one server whose services were probed with `outcomes`. */
  function EvaluateServer(server: Server, outcomes: seq<ProbeOutcome>, t: Thresholds): (r: ServerStatus)
    requires |outcomes| == |server.services|
    ensures r.id == server.id && r.name == server.name
    ensures |r.services| == |server.services|
    ensures r.status == OverallStatus(r.services) && r.latency == AverageLatency(r.services)
  {
    var ss := ServicesStatus(server.services, outcomes, t);
    ServerStatus(server.id, server.name, OverallStatus(ss), AverageLatency(ss), ss)
  }

  /** A server without services is not probed at all: green, with a null latency. */
  lemma ServerWithoutServicesIsGreen(server: Server, t: Thresholds)
    requires server.services == []
    ensures EvaluateServer(server, [], t).status == Green
    ensures EvaluateServer(server, [], t).latency.None?
    ensures EvaluateServer(server, [], t).services == []
  {
  }

  /** Two services answer in 40 ms and 250 ms, a third times out: red, 145 ms. */
  lemma MixedServerExample()
    ensures var server := Server("s", "S", "10.0.0.1",
                                 [Service("A", 1, "TCP"), Service("B", 2, "TCP"), Service("C", 3, "TCP")]);
            var r := EvaluateServer(server, [Connected(40), Connected(250), TimedOut], DefaultThresholds);
            r.status == Red && r.latency == Some(145)
  {
    var svcs := [Service("A", 1, "TCP"), Service("B", 2, "TCP"), Service("C", 3, "TCP")];
    var ss := ServicesStatus(svcs, [Connected(40), Connected(250), TimedOut], DefaultThresholds);
    ServicesStatusAt(svcs, [Connected(40), Connected(250), TimedOut], DefaultThresholds, 0);
    ServicesStatusAt(svcs, [Connected(40), Connected(250), TimedOut], DefaultThresholds, 1);
    ServicesStatusAt(svcs, [Connected(40), Connected(250), TimedOut], DefaultThresholds, 2);
    var a := ServiceStatus("A", "TCP", Green, Some(40));
    var b := ServiceStatus("B", "TCP", Yellow, Some(250));
    var c := ServiceStatus("C", "TCP", Red, None);
    assert ss[0] == a && ss[1] == b && ss[2] == c;
    assert ss == [a, b, c];
    assert HasStatus(ss, Red);
    assert [a, b, c][1..] == [b, c] && [b, c][1..] == [c] && [c][1..] == [];
    assert ValidLatencies([c]) == [];
    assert ValidLatencies([b, c]) == [250];
    assert ValidLatencies(ss) == [40, 250];
    assert Sum([40, 250]) == 290 by {
      assert [40, 250][1..] == [250];
      assert [250][1..] == [];
    }
    assert Round(290, 2) == 145;
  }

  /** The aggregated status of one MPLS link. */
  function EvaluateMpls(link: MplsLink, o: ProbeOutcome, t: Thresholds): (r: MplsStatus)
    ensures r.id == link.id && r.name == link.name && r.location == link.location
    ensures r.status == CheckConnection(o, t).statusCode && r.latency == CheckConnection(o, t).latency
  {
    var res := CheckConnection(o, t);
    MplsStatus(link.id, link.name, res.statusCode, res.latency, link.location)
  }
}
