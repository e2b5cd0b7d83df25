/**
 * The in-memory metrics history (`metricsHistory` and `addMetricToHistory`):
 * two maps, one per kind, from a history key to an oldest-first sequence of
 * points, each sequence capped at the newest `Capacity` points.
 */
module History {
  import opened Util
  import opened Classifier

  /** The kind-specific part of a recorded metric. */
  datatype Detail =
    | ServiceDetail(service: string)
    | ServerDetail(servicesCount: nat, operationalServices: nat)
    | MplsDetail(location: string)

  /** The metric object a handler passes to `addMetricToHistory`. */
  datatype Metric = Metric(latency: Option<nat>, status: Status, detail: Detail)

  /** A retained point: the metric spread after its `timestamp` (milliseconds). */
  datatype MetricPoint = MetricPoint(timestamp: int, latency: Option<nat>, status: Status, detail: Detail)

  function Stamp(m: Metric, now: int): MetricPoint
  {
    MetricPoint(now, m.latency, m.status, m.detail)
  }

  /** The two history maps: 'servers' and 'mpls'. */
  datatype Kind = Servers | Mpls

  function KindName(k: Kind): string
  {
    match k
    case Servers => "servers"
    case Mpls => "mpls"
  }

  /** The `['servers', 'mpls'].includes(type)` test of the metrics handler, as a parse. */
  function ParseKind(s: string): (r: Option<Kind>)
    ensures r.Some? <==> s == "servers" || s == "mpls"
    ensures r.Some? ==> KindName(r.value) == s
  {
    if s == "servers" then Some(Servers)
    else if s == "mpls" then Some(Mpls)
    else None
  }

  lemma ParseKindName(k: Kind)
    ensures ParseKind(KindName(k)) == Some(k)
  {
  }

  /** The history key `${type}-${id}`. */
  function Key(k: Kind, id: string): string
  {
    KindName(k) + "-" + id
  }

  /** The id under which a server's service is recorded: `${server.id}-${service.name}`. */
  function ServiceId(serverId: string, serviceName: string): string
  {
    serverId + "-" + serviceName
  }

  /**
   * Service histories share the 'servers' map with server histories, so a
   * service and a server whose id spells the same text share one key.
   */
  lemma {:induction false} ServiceKeyCollides(serverId: string, serviceName: string)
    ensures Key(Servers, ServiceId(serverId, serviceName)) == Key(Servers, serverId + "-" + serviceName)
    ensures Key(Servers, ServiceId("a", "b-c")) == Key(Servers, ServiceId("a-b", "c"))
  {
    assert ServiceId("a", "b-c") == ServiceId("a-b", "c");
  }

  /** Keys of one kind are distinct for distinct ids. */
  lemma {:induction false} KeyInjective(k: Kind, a: string, b: string)
    requires Key(k, a) == Key(k, b)
    ensures a == b
  {
    var n := |KindName(k) + "-"|;
    assert a == Key(k, a)[n..];
    assert b == Key(k, b)[n..];
  }

  /** The most points one history keeps. */
  const Capacity: nat := 100

  /** The newest `n` elements of `s` (all of them if there are fewer). */
  function Newest<T>(s: seq<T>, n: nat): (r: seq<T>)
    ensures |r| == Min(n, |s|)
  {
    if |s| <= n then s else s[|s| - n..]
  }

  /** What a history keeps of a sequence of appended points. */
  function Retain(s: seq<MetricPoint>): (r: seq<MetricPoint>)
    ensures |r| <= Capacity
  {
    Newest(s, Capacity)
  }

  /** The history stored under `key`, or the empty history if the key was never recorded. */
  function Lookup(m: map<string, seq<MetricPoint>>, key: string): seq<MetricPoint>
  {
    if key in m then m[key] else []
  }

  /** The map after one `addMetricToHistory` on `key`. */
  function Recorded(m: map<string, seq<MetricPoint>>, key: string, p: MetricPoint): map<string, seq<MetricPoint>>
  {
    m[key := Retain(Lookup(m, key) + [p])]
  }

  /** Every history in the map is within capacity. */
  ghost predicate Bounded(m: map<string, seq<MetricPoint>>)
  {
    forall key :: key in m ==> |m[key]| <= Capacity
  }

  /**
   * One append: the key now exists, its history is within capacity, ends
   * with the new point and is the newest min(100, n + 1) of the old history
   * plus the point; every other key is untouched.
   */
  lemma {:induction false} RecordedSpec(m: map<string, seq<MetricPoint>>, key: string, p: MetricPoint)
    requires Bounded(m)
    ensures Bounded(Recorded(m, key, p))
    ensures key in Recorded(m, key, p)
    ensures var h, h' := Lookup(m, key), Recorded(m, key, p)[key];
            |h'| == Min(Capacity, |h| + 1) && h'[|h'| - 1] == p &&
            h' == (h + [p])[|h| + 1 - |h'|..] &&
            (|h| < Capacity ==> h' == h + [p]) &&
            (|h| == Capacity ==> h' == h[1..] + [p])
    ensures forall k :: k != key ==> (k in Recorded(m, key, p) <==> k in m)
    ensures forall k :: k != key && k in m ==> Recorded(m, key, p)[k] == m[k]
  {
    var h := Lookup(m, key);
    assert |h| <= Capacity;
    if |h| == Capacity {
      assert (h + [p])[1..] == h[1..] + [p];
    }
  }

  /** Appending the points of `pts` one after another. */
  function RecordAll(h: seq<MetricPoint>, pts: seq<MetricPoint>): seq<MetricPoint>
    decreases |pts|
  {
    if pts == [] then h else RecordAll(Retain(h + [pts[0]]), pts[1..])
  }

  lemma {:induction false} NewestOfNewest<T>(s: seq<T>, t: seq<T>, n: nat)
    ensures Newest(Newest(s, n) + t, n) == Newest(s + t, n)
  {
    var a := Newest(Newest(s, n) + t, n);
    var b := Newest(s + t, n);
    assert |a| == |b|;
    forall i | 0 <= i < |a|
      ensures a[i] == b[i]
    {
      var u := Newest(s, n);
      assert a[i] == (u + t)[|u| + |t| - |a| + i];
      assert b[i] == (s + t)[|s| + |t| - |b| + i];
    }
  }

  /**
   * Any number of appends to a history within capacity keep exactly the
   * newest `Capacity` points of the old history followed by the new points.
   */
  lemma {:induction false} RecordAllKeepsNewest(h: seq<MetricPoint>, pts: seq<MetricPoint>)
    requires |h| <= Capacity
    ensures RecordAll(h, pts) == Retain(h + pts)
    decreases |pts|
  {
    if pts != [] {
      var h1 := Retain(h + [pts[0]]);
      RecordAllKeepsNewest(h1, pts[1..]);
      NewestOfNewest(h + [pts[0]], pts[1..], Capacity);
      assert h + [pts[0]] + pts[1..] == h + pts;
    }
  }

  /** The map after appending the points of `pts` to `key`, one `addMetricToHistory` each. */
  function RecordedEach(m: map<string, seq<MetricPoint>>, key: string, pts: seq<MetricPoint>)
    : map<string, seq<MetricPoint>>
    decreases |pts|
  {
    if pts == [] then m else RecordedEach(Recorded(m, key, pts[0]), key, pts[1..])
  }

  /** Successive appends to one key leave `RecordAll` of its old history under that key. */
  lemma {:induction false} RecordedEachKey(m: map<string, seq<MetricPoint>>, key: string, pts: seq<MetricPoint>)
    ensures Lookup(RecordedEach(m, key, pts), key) == RecordAll(Lookup(m, key), pts)
    decreases |pts|
  {
    if pts != [] {
      RecordedEachKey(Recorded(m, key, pts[0]), key, pts[1..]);
      assert Lookup(Recorded(m, key, pts[0]), key) == Retain(Lookup(m, key) + [pts[0]]);
    }
  }

  /**
   * Any number of appends to one key of a store within capacity keep the
   * newest 100 of its old history followed by the new points; once at
   * least 100 points were appended, exactly the newest 100 of them.
   */
  lemma {:induction false} RecordedEachKeepsNewest(m: map<string, seq<MetricPoint>>, key: string,
                                                   pts: seq<MetricPoint>)
    requires Bounded(m)
    ensures Lookup(RecordedEach(m, key, pts), key) == Retain(Lookup(m, key) + pts)
    ensures |pts| >= Capacity ==> Lookup(RecordedEach(m, key, pts), key) == pts[|pts| - Capacity..]
  {
    var h := Lookup(m, key);
    RecordedEachKey(m, key, pts);
    RecordAllKeepsNewest(h, pts);
    if |pts| >= Capacity {
      assert (h + pts)[|h + pts| - Capacity..] == pts[|pts| - Capacity..];
    }
  }

  /** After 150 appends to a key without history, the first 50 points are gone and the newest 100 remain. */
  lemma {:induction false} HundredFiftyAppends(m: map<string, seq<MetricPoint>>, key: string, pts: seq<MetricPoint>)
    requires Bounded(m) && key !in m
    requires |pts| == 150
    ensures Lookup(RecordedEach(m, key, pts), key) == pts[50..]
    ensures |Lookup(RecordedEach(m, key, pts), key)| == Capacity
  {
    RecordedEachKeepsNewest(m, key, pts);
  }

  /** The process-wide `metricsHistory` object. */
  class MetricsStore {
    var servers: map<string, seq<MetricPoint>>
    var mpls: map<string, seq<MetricPoint>>

    /** No history ever holds more than `Capacity` points. */
    ghost predicate Valid()
      reads this
    {
      Bounded(servers) && Bounded(mpls)
    }

    /** The map that holds the histories of kind `k`. */
    function Histories(k: Kind): map<string, seq<MetricPoint>>
      reads this
    {
      match k
      case Servers => servers
      case Mpls => mpls
    }

    /** Both maps start empty. */
    constructor ()
      ensures Valid() && servers == map[] && mpls == map[]
    {
      servers := map[];
      mpls := map[];
    }

    /**
     * `addMetricToHistory(type, id, metric)`, stamped with the clock reading
     * `now`: create the history lazily, push the point and shift the oldest
     * one out once the length goes over `Capacity`.
     */
    method AddMetricToHistory(k: Kind, id: string, metric: Metric, now: int)
      requires Valid()
      modifies this
      ensures Valid()
      ensures Histories(k) == Recorded(old(Histories(k)), Key(k, id), Stamp(metric, now))
      ensures k == Servers ==> mpls == old(mpls)
      ensures k == Mpls ==> servers == old(servers)
    {
      var key := Key(k, id);
      var point := Stamp(metric, now);
      var table := if k == Servers then servers else mpls;
      ghost var before := Lookup(table, key);
      assert |before| <= Capacity;
      if key !in table {
        table := table[key := []];
      }
      var history := table[key];
      assert history == before;
      history := history + [point];
      if |history| > Capacity {
        history := history[1..];
      }
      assert history == Retain(before + [point]);
      table := table[key := history];
      assert table == Recorded(old(Histories(k)), key, point);
      if k == Servers {
        servers := table;
      } else {
        mpls := table;
      }
      RecordedSpec(old(Histories(k)), key, point);
    }
  }
}
