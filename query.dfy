/**
 * Read side of the metrics history: the time-range filter and summary of
 * `/api/metrics/:type/:id` and the last-10 summary of `/api/metrics/summary`.
 */
module Query {
  import opened Util
  import opened Classifier
  import opened Rounding
  import opened History

  /** The lookback of a `timeRange` value in milliseconds, or None for a value the switch does not list. */
  function RangeWindow(timeRange: string): (w: Option<int>)
    ensures timeRange == "15m" ==> w == Some(15 * 60 * 1000)
    ensures timeRange == "1h" ==> w == Some(60 * 60 * 1000)
    ensures timeRange == "6h" ==> w == Some(6 * 60 * 60 * 1000)
    ensures timeRange == "24h" ==> w == Some(24 * 60 * 60 * 1000)
    ensures w.None? <==> timeRange !in {"15m", "1h", "6h", "24h"}
  {
    if timeRange == "15m" then Some(900000)
    else if timeRange == "1h" then Some(3600000)
    else if timeRange == "6h" then Some(21600000)
    else if timeRange == "24h" then Some(86400000)
    else None
  }

  /** The requested time range, `1h` when the request gives none. */
  function RequestedRange(param: Option<string>): string
  {
    param.GetOr("1h")
  }

  predicate InWindow(p: MetricPoint, now: int, window: int)
  {
    now - p.timestamp <= window
  }

  /** `a` is `b` with some elements left out, the rest in their original order. */
  ghost predicate IsSubsequence(a: seq<MetricPoint>, b: seq<MetricPoint>)
    decreases |b|
  {
    if a == [] then true
    else if b == [] then false
    else if a[0] == b[0] then IsSubsequence(a[1..], b[1..])
    else IsSubsequence(a, b[1..])
  }

  /**
   * `history.filter(h => now - h.timestamp <= window)`: an order-preserving
   * subsequence holding every in-window point as often as the history does,
   * and no other point.
   */
  function FilterWindow(h: seq<MetricPoint>, now: int, window: int): (r: seq<MetricPoint>)
    ensures |r| <= |h|
  {
    if h == [] then []
    else
      var rest := FilterWindow(h[1..], now, window);
      if InWindow(h[0], now, window) then [h[0]] + rest else rest
  }

  lemma {:induction false} FilterWindowSpec(h: seq<MetricPoint>, now: int, window: int)
    ensures IsSubsequence(FilterWindow(h, now, window), h)
    ensures forall p :: multiset(FilterWindow(h, now, window))[p] == if InWindow(p, now, window) then multiset(h)[p] else 0
  {
    if h != [] {
      FilterWindowSpec(h[1..], now, window);
      assert h == [h[0]] + h[1..];
    }
  }

  /** The filtered history a `timeRange` selects; an unlisted value selects everything. */
  function FilterByRange(h: seq<MetricPoint>, timeRange: string, now: int): (r: seq<MetricPoint>)
    ensures RangeWindow(timeRange).None? ==> r == h
    ensures RangeWindow(timeRange).Some? ==> r == FilterWindow(h, now, RangeWindow(timeRange).value)
  {
    match RangeWindow(timeRange)
    case None => h
    case Some(w) => FilterWindow(h, now, w)
  }

  /** Every in-window point of the history is in the result and every result point is an in-window history point. */
  lemma {:induction false} FilterMembership(h: seq<MetricPoint>, now: int, window: int, p: MetricPoint)
    ensures p in FilterWindow(h, now, window) <==> p in h && InWindow(p, now, window)
  {
    var r := FilterWindow(h, now, window);
    FilterWindowSpec(h, now, window);
    assert p in r <==> multiset(r)[p] > 0;
    assert p in h <==> multiset(h)[p] > 0;
  }

  /** Timestamps never decrease along the history. */
  ghost predicate Chronological(h: seq<MetricPoint>)
  {
    forall i, j :: 0 <= i < j < |h| ==> h[i].timestamp <= h[j].timestamp
  }

  /** On a chronological history the window filter keeps a suffix: the newest points. */
  lemma {:induction false} FilterChronologicalIsSuffix(h: seq<MetricPoint>, now: int, window: int)
    requires Chronological(h)
    ensures exists k :: 0 <= k <= |h| && FilterWindow(h, now, window) == h[k..]
    decreases |h|
  {
    if h == [] {
      assert FilterWindow(h, now, window) == h[0..];
    } else if InWindow(h[0], now, window) {
      assert forall i :: 0 <= i < |h| ==> InWindow(h[i], now, window) by {
        forall i | 0 <= i < |h| ensures InWindow(h[i], now, window) {
          if i > 0 { assert h[0].timestamp <= h[i].timestamp; }
        }
      }
      AllInWindow(h, now, window);
      assert FilterWindow(h, now, window) == h[0..];
    } else {
      FilterChronologicalIsSuffix(h[1..], now, window);
      var k :| 0 <= k <= |h[1..]| && FilterWindow(h[1..], now, window) == h[1..][k..];
      assert h[1..][k..] == h[k + 1..];
    }
  }

  lemma {:induction false} AllInWindow(h: seq<MetricPoint>, now: int, window: int)
    requires forall i :: 0 <= i < |h| ==> InWindow(h[i], now, window)
    ensures FilterWindow(h, now, window) == h
  {
    if h != [] {
      AllInWindow(h[1..], now, window);
    }
  }

  /** A point's latency, with a null latency counted as 0. */
  function LatencyOrZero(p: MetricPoint): nat
  {
    p.latency.GetOr(0)
  }

  /** The sum of the points' latencies, null counted as 0. */
  function LatencySum(h: seq<MetricPoint>): nat
  {
    if h == [] then 0 else LatencyOrZero(h[0]) + LatencySum(h[1..])
  }

  /** The largest latency of a non-empty history, null counted as 0 (`maxLatency`). */
  function MaxLatencyOf(h: seq<MetricPoint>): nat
    requires |h| > 0
  {
    if |h| == 1 then LatencyOrZero(h[0])
    else Max(LatencyOrZero(h[0]), MaxLatencyOf(h[1..]))
  }

  /** The maximum bounds every point's latency (null as 0) and is one of them. */
  lemma {:induction false} MaxLatencySpec(h: seq<MetricPoint>)
    requires |h| > 0
    ensures forall i :: 0 <= i < |h| ==> LatencyOrZero(h[i]) <= MaxLatencyOf(h)
    ensures exists i :: 0 <= i < |h| && LatencyOrZero(h[i]) == MaxLatencyOf(h)
  {
    if |h| > 1 {
      MaxLatencySpec(h[1..]);
      assert forall i :: 1 <= i < |h| ==> h[i] == h[1..][i - 1];
      if LatencyOrZero(h[0]) < MaxLatencyOf(h[1..]) {
        var j :| 0 <= j < |h[1..]| && LatencyOrZero(h[1..][j]) == MaxLatencyOf(h[1..]);
        assert LatencyOrZero(h[j + 1]) == MaxLatencyOf(h);
      } else {
        assert LatencyOrZero(h[0]) == MaxLatencyOf(h);
      }
    } else {
      assert LatencyOrZero(h[0]) == MaxLatencyOf(h);
    }
  }

  /** The non-null latencies of the points, in history order (the argument list of `minLatency`). */
  function NonNullLatencies(h: seq<MetricPoint>): seq<nat>
  {
    if h == [] then []
    else
      var rest := NonNullLatencies(h[1..]);
      match h[0].latency
      case Some(ms) => [ms] + rest
      case None => rest
  }

  /** The non-null latencies are exactly the latencies of the points that have one. */
  lemma {:induction false} NonNullLatenciesSpec(h: seq<MetricPoint>)
    ensures forall k :: 0 <= k < |NonNullLatencies(h)| ==>
              exists i :: 0 <= i < |h| && h[i].latency == Some(NonNullLatencies(h)[k])
    ensures forall i :: 0 <= i < |h| && h[i].latency.Some? ==> h[i].latency.value in NonNullLatencies(h)
  {
    if h != [] {
      NonNullLatenciesSpec(h[1..]);
      assert forall i :: 1 <= i < |h| ==> h[i] == h[1..][i - 1];
      var r, rest := NonNullLatencies(h), NonNullLatencies(h[1..]);
      if h[0].latency.Some? {
        forall k | 0 <= k < |r| ensures exists i :: 0 <= i < |h| && h[i].latency == Some(r[k]) {
          if k == 0 {
            assert h[0].latency == Some(r[0]);
          } else {
            assert r[k] == rest[k - 1];
            var j :| 0 <= j < |h[1..]| && h[1..][j].latency == Some(rest[k - 1]);
            assert h[j + 1].latency == Some(r[k]);
          }
        }
      } else {
        forall k | 0 <= k < |r| ensures exists i :: 0 <= i < |h| && h[i].latency == Some(r[k]) {
          var j :| 0 <= j < |h[1..]| && h[1..][j].latency == Some(rest[k]);
          assert h[j + 1].latency == Some(r[k]);
        }
      }
    } else {
      assert NonNullLatencies(h) == [];
    }
  }

  /** The number of points whose latency is `ms`. */
  function PointsWithLatency(h: seq<MetricPoint>, ms: nat): nat
  {
    if h == [] then 0 else (if h[0].latency == Some(ms) then 1 else 0) + PointsWithLatency(h[1..], ms)
  }

  /** Each latency occurs among the non-null latencies exactly as often as the points carry it. */
  lemma {:induction false} NonNullLatenciesMultiplicity(h: seq<MetricPoint>, ms: nat)
    ensures multiset(NonNullLatencies(h))[ms] == PointsWithLatency(h, ms)
  {
    if h != [] {
      NonNullLatenciesMultiplicity(h[1..], ms);
    }
  }

  /** The value of `Math.min(...)`: a number, or `Infinity` for no arguments. */
  datatype MinLatency = MinMs(ms: nat) | Infinity

  function MinOf(v: seq<nat>): (m: MinLatency)
    ensures m.Infinity? <==> v == []
  {
    if v == [] then Infinity
    else
      match MinOf(v[1..])
      case Infinity => MinMs(v[0])
      case MinMs(m) => MinMs(Min(v[0], m))
  }

  /** A finite minimum is one of the values and no value is below it. */
  lemma {:induction false} MinOfSpec(v: seq<nat>)
    ensures MinOf(v).MinMs? ==> MinOf(v).ms in v && forall i :: 0 <= i < |v| ==> MinOf(v).ms <= v[i]
  {
    if v != [] {
      MinOfSpec(v[1..]);
      assert forall i :: 1 <= i < |v| ==> v[i] == v[1..][i - 1];
    }
  }

  /** The number of green points (the numerator of `uptime`). */
  function GreenPoints(h: seq<MetricPoint>): (n: nat)
    ensures n <= |h|
  {
    if h == [] then 0 else (if h[0].status == Green then 1 else 0) + GreenPoints(h[1..])
  }

  /** `avgLatency`: null latencies count as 0 and every point counts in the divisor. */
  function AvgLatency(h: seq<MetricPoint>): nat
  {
    if |h| > 0 then Round(LatencySum(h), |h|) else 0
  }

  /** `uptime`: the rounded percentage of green points. */
  function Uptime(h: seq<MetricPoint>): nat
  {
    if |h| > 0 then Round(GreenPoints(h) * 100, |h|) else 0
  }

  /** The `summary` object of the metrics handler. */
  datatype Summary = Summary(totalPoints: nat, avgLatency: nat, maxLatency: nat, minLatency: MinLatency, uptime: nat)

  function Summarize(h: seq<MetricPoint>): Summary
  {
    if |h| > 0 then Summary(|h|, AvgLatency(h), MaxLatencyOf(h), MinOf(NonNullLatencies(h)), Uptime(h))
    else Summary(0, 0, 0, MinMs(0), 0)
  }

  lemma {:induction false} LatencySumBounded(h: seq<MetricPoint>, hi: nat)
    requires forall i :: 0 <= i < |h| ==> LatencyOrZero(h[i]) <= hi
    ensures LatencySum(h) <= |h| * hi
  {
    if h != [] {
      assert forall i :: 1 <= i < |h| ==> h[i] == h[1..][i - 1];
      LatencySumBounded(h[1..], hi);
      assert |h| * hi == hi + (|h| - 1) * hi;
    }
  }

  /** Uptime is a percentage, and the average never exceeds the maximum. */
  lemma {:induction false} SummaryBounds(h: seq<MetricPoint>)
    ensures Summarize(h).totalPoints == |h|
    ensures Summarize(h).uptime <= 100
    ensures Summarize(h).avgLatency <= Summarize(h).maxLatency
    ensures |h| == 0 ==> Summarize(h) == Summary(0, 0, 0, MinMs(0), 0)
  {
    if |h| > 0 {
      UptimeBounds(h);
      MaxLatencySpec(h);
      LatencySumBounded(h, MaxLatencyOf(h));
      RoundBetween(LatencySum(h), |h|, 0, MaxLatencyOf(h));
    }
  }

  lemma {:induction false} UptimeBounds(h: seq<MetricPoint>)
    ensures Uptime(h) <= 100
  {
    if |h| > 0 {
      RoundBetween(GreenPoints(h) * 100, |h|, 0, 100);
    }
  }

  /**
   * The reported minimum is a non-null latency that no other non-null
   * latency undercuts; `Infinity` exactly when a non-empty range has only
   * null latencies.
   */
  lemma {:induction false} SummaryMinLatency(h: seq<MetricPoint>)
    requires |h| > 0
    ensures Summarize(h).minLatency.Infinity? <==> forall i :: 0 <= i < |h| ==> h[i].latency.None?
    ensures Summarize(h).minLatency.MinMs? ==>
      (exists i :: 0 <= i < |h| && h[i].latency == Some(Summarize(h).minLatency.ms)) &&
      (forall i :: 0 <= i < |h| && h[i].latency.Some? ==> Summarize(h).minLatency.ms <= h[i].latency.value)
  {
    var v := NonNullLatencies(h);
    NonNullLatenciesSpec(h);
    MinOfSpec(v);
    if v != [] {
      var k :| 0 <= k < |v|;
      assert exists i :: 0 <= i < |h| && h[i].latency == Some(v[k]);
    }
    var m := MinOf(v);
    if m.MinMs? {
      var k :| 0 <= k < |v| && v[k] == m.ms;
    }
  }

  lemma {:induction false} GreenPointsAll(h: seq<MetricPoint>)
    ensures GreenPoints(h) == |h| <==> forall i :: 0 <= i < |h| ==> h[i].status == Green
  {
    if h != [] {
      GreenPointsAll(h[1..]);
      assert forall i :: 1 <= i < |h| ==> h[i] == h[1..][i - 1];
    }
  }

  lemma {:induction false} GreenPointsNone(h: seq<MetricPoint>)
    ensures GreenPoints(h) == 0 <==> forall i :: 0 <= i < |h| ==> h[i].status != Green
  {
    if h != [] {
      GreenPointsNone(h[1..]);
      assert forall i :: 1 <= i < |h| ==> h[i] == h[1..][i - 1];
    }
  }

  /**
   * For any range a history can hold (fewer than 200 points), uptime is 100
   * exactly when every point is green and 0 exactly when none is.
   */
  lemma {:induction false} UptimeExtremes(h: seq<MetricPoint>)
    requires 0 < |h| < 200
    ensures Uptime(h) == 100 <==> forall i :: 0 <= i < |h| ==> h[i].status == Green
    ensures Uptime(h) == 0 <==> forall i :: 0 <= i < |h| ==> h[i].status != Green
  {
    var n, g := |h|, GreenPoints(h);
    var r := Uptime(h);
    GreenPointsAll(h);
    GreenPointsNone(h);
    if g == n {
      RoundExact(100, n);
      assert g * 100 == n * 100;
    } else {
      // 2n*r <= 200g + n <= 200(n - 1) + n < 200n, so r < 100.
      assert 2 * n * r <= 200 * g + n;
      assert 200 * g + n < 2 * n * 100;
      MulStrict(2 * n, r, 100);
    }
    if g == 0 {
      assert Round(0, n) == 0 by { RoundExact(0, n); }
    } else {
      // 200g + n >= 200 + n > 2n, so r > 0.
      assert 200 * g + n < 2 * n * r + 2 * n;
      assert 2 * n * 1 <= 200 * g + n;
      assert 2 * n * 1 < 2 * n * (r + 1);
      MulStrict(2 * n, 1, r + 1);
    }
  }

  /** Why a metrics request was refused (HTTP 400 'Tipo inválido'). */
  datatype QueryError = InvalidType

  /** The body of a successful `/api/metrics/:type/:id` response. */
  datatype MetricsResponse = MetricsResponse(id: string, kind: Kind, timeRange: string,
                                             data: seq<MetricPoint>, summary: Summary)

  /**
   * The metrics handler over a snapshot of the two history maps: reject an
   * unknown `type`; an id without history gives an empty range.
   */
  function MetricsQuery(servers: map<string, seq<MetricPoint>>, mpls: map<string, seq<MetricPoint>>,
                        typeName: string, id: string, timeRangeParam: Option<string>, now: int)
    : (r: Result<MetricsResponse, QueryError>)
    ensures r.Err? <==> ParseKind(typeName).None?
    ensures r.Ok? ==> var k := ParseKind(typeName).value;
                      var h := Lookup(if k == Servers then servers else mpls, Key(k, id));
                      r.value.id == id && r.value.kind == k &&
                      r.value.timeRange == RequestedRange(timeRangeParam) &&
                      r.value.data == FilterByRange(h, RequestedRange(timeRangeParam), now) &&
                      r.value.summary == Summarize(r.value.data)
  {
    match ParseKind(typeName)
    case None => Err(InvalidType)
    case Some(k) =>
      var timeRange := RequestedRange(timeRangeParam);
      var history := Lookup(if k == Servers then servers else mpls, Key(k, id));
      var data := FilterByRange(history, timeRange, now);
      Ok(MetricsResponse(id, k, timeRange, data, Summarize(data)))
  }

  /** An id that was never recorded gives an empty, all-zero response rather than an error. */
  lemma UnknownIdIsEmpty(servers: map<string, seq<MetricPoint>>, mpls: map<string, seq<MetricPoint>>,
                         typeName: string, id: string, timeRangeParam: Option<string>, now: int)
    requires ParseKind(typeName).Some?
    requires Key(ParseKind(typeName).value, id) !in (if typeName == "servers" then servers else mpls)
    ensures MetricsQuery(servers, mpls, typeName, id, timeRangeParam, now).Ok?
    ensures MetricsQuery(servers, mpls, typeName, id, timeRangeParam, now).value.data == []
    ensures MetricsQuery(servers, mpls, typeName, id, timeRangeParam, now).value.summary
            == Summary(0, 0, 0, MinMs(0), 0)
  {
    var h: seq<MetricPoint> := [];
    assert forall w :: FilterWindow(h, now, w) == [];
  }

  lemma {:induction false} FilterWindowAppend(h: seq<MetricPoint>, p: MetricPoint, now: int, window: int)
    ensures FilterWindow(h + [p], now, window)
            == FilterWindow(h, now, window) + (if InWindow(p, now, window) then [p] else [])
    decreases |h|
  {
    if h == [] {
      assert [] + [p] == [p];
      assert [p][1..] == [];
    } else {
      FilterWindowAppend(h[1..], p, now, window);
      assert (h + [p])[1..] == h[1..] + [p];
    }
  }

  /**
   * Round trip between the store and the query: a point recorded no more
   * than 15 minutes before `now` is the last point of the data returned
   * for its id under every time range.
   */
  lemma {:induction false} RecordedPointIsQueried(servers: map<string, seq<MetricPoint>>,
                                                  mpls: map<string, seq<MetricPoint>>,
                                                  id: string, p: MetricPoint, timeRangeParam: Option<string>, now: int)
    requires Bounded(servers)
    requires now - p.timestamp <= 15 * 60 * 1000
    ensures var r := MetricsQuery(Recorded(servers, Key(Servers, id), p), mpls, "servers", id, timeRangeParam, now);
            r.Ok? && |r.value.data| > 0 && r.value.data[|r.value.data| - 1] == p &&
            r.value.summary.totalPoints == |r.value.data|
  {
    var key := Key(Servers, id);
    RecordedSpec(servers, key, p);
    var h' := Recorded(servers, key, p)[key];
    assert Lookup(Recorded(servers, key, p), key) == h';
    FilterKeepsRecentLast(h', RequestedRange(timeRangeParam), now);
  }

  /** A last point at most 15 minutes old survives every time-range filter, and stays last. */
  lemma {:induction false} FilterKeepsRecentLast(h: seq<MetricPoint>, timeRange: string, now: int)
    requires |h| > 0 && now - h[|h| - 1].timestamp <= 15 * 60 * 1000
    ensures |FilterByRange(h, timeRange, now)| > 0
    ensures FilterByRange(h, timeRange, now)[|FilterByRange(h, timeRange, now)| - 1] == h[|h| - 1]
  {
    var p := h[|h| - 1];
    var init := h[..|h| - 1];
    assert h == init + [p];
    match RangeWindow(timeRange)
    case None =>
    case Some(w) =>
      assert InWindow(p, now, w);
      FilterWindowAppend(init, p, now, w);
  }

  /** `currentStatus`: the last point's status, or 'unknown'. */
  datatype CurrentStatus = Known(status: Status) | Unknown

  /** One entry of the last-10 summary. */
  datatype RecentSummary = RecentSummary(currentStatus: CurrentStatus, avgLatency: nat, uptime: nat)

  /** How many of the newest points the summary endpoint looks at. */
  const RecentCount: nat := 10

  /** The newest `RecentCount` points of a history, all of them if it is shorter. */
  function Recent(h: seq<MetricPoint>): seq<MetricPoint>
  {
    Newest(h, RecentCount)
  }

  function RecentSummaryOf(h: seq<MetricPoint>): RecentSummary
  {
    var recent := Recent(h);
    RecentSummary(if |recent| > 0 then Known(recent[|recent| - 1].status) else Unknown,
                  AvgLatency(recent), Uptime(recent))
  }

  /**
   * The last-10 summary names the status of the most recent point, or
   * 'unknown' with zero average and uptime for an empty history; it looks
   * at no more than the newest ten points.
   */
  lemma {:induction false} RecentSummarySpec(h: seq<MetricPoint>)
    ensures RecentSummaryOf(h).currentStatus == Unknown <==> h == []
    ensures h != [] ==> RecentSummaryOf(h).currentStatus == Known(h[|h| - 1].status)
    ensures h == [] ==> RecentSummaryOf(h) == RecentSummary(Unknown, 0, 0)
    ensures RecentSummaryOf(h).uptime <= 100
    ensures |h| <= RecentCount ==> Recent(h) == h
    ensures |Recent(h)| == Min(RecentCount, |h|) && Recent(h) == h[|h| - |Recent(h)|..]
  {
    UptimeBounds(Recent(h));
    if h != [] {
      var r := Recent(h);
      assert r[|r| - 1] == h[|h| - 1];
    }
  }
}
