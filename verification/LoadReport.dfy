/** The load report: nearest-rank percentiles, and the coordinator of the event-stream clients. */
module LoadReport {
  import opened Ordering
  import opened Distinctness

  // ---------- Percentiles ----------

  predicate RealLe(x: real, y: real) { x <= y }

  function Ceil(x: real): int { -((-x).Floor) }

  lemma CeilBounds(x: real)
    ensures x <= Ceil(x) as real < x + 1.0
  {
  }

  function Rank(n: nat, quantile: real): int
    requires n >= 1
  {
    var rank := Ceil(quantile * n as real) - 1;
    var capped := if n - 1 <= rank then n - 1 else rank;
    if 0 >= capped then 0 else capped
  }

  function Percentile(values: seq<real>, quantile: real): real {
    var sorted := Sort(RealLe, values);
    if sorted == [] then 0.0 else sorted[Rank(|sorted|, quantile)]
  }

  /** How many values are below `x`, counting those equal to it or not. */
  function Below(values: seq<real>, x: real, orEqual: bool): nat {
    if values == [] then 0
    else Below(values[1..], x, orEqual) + if values[0] < x || (orEqual && values[0] == x) then 1 else 0
  }

  lemma {:induction false} BelowConcat(a: seq<real>, b: seq<real>, x: real, orEqual: bool)
    ensures Below(a + b, x, orEqual) == Below(a, x, orEqual) + Below(b, x, orEqual)
  {
    if a == [] {
      assert a + b == b;
    } else {
      assert (a + b)[1..] == a[1..] + b;
      BelowConcat(a[1..], b, x, orEqual);
    }
  }

  lemma {:induction false} BelowInsert(y: real, s: seq<real>, x: real, orEqual: bool)
    ensures Below(Insert(RealLe, y, s), x, orEqual) == Below([y] + s, x, orEqual)
  {
    assert ([y] + s)[1..] == s;
    if s != [] && !RealLe(y, s[0]) {
      BelowInsert(y, s[1..], x, orEqual);
      assert ([y] + s[1..])[1..] == s[1..];
      var r := [s[0]] + Insert(RealLe, y, s[1..]);
      assert r[1..] == Insert(RealLe, y, s[1..]);
    }
  }

  lemma {:induction false} BelowSorted(s: seq<real>, x: real, orEqual: bool)
    ensures Below(Sort(RealLe, s), x, orEqual) == Below(s, x, orEqual)
  {
    if s != [] {
      BelowSorted(s[1..], x, orEqual);
      BelowInsert(s[0], Sort(RealLe, s[1..]), x, orEqual);
      assert ([s[0]] + Sort(RealLe, s[1..]))[1..] == Sort(RealLe, s[1..]);
    }
  }

  lemma {:induction false} BelowAll(s: seq<real>, x: real, orEqual: bool)
    ensures Below(s, x, orEqual) <= |s|
    ensures (forall i :: 0 <= i < |s| ==> s[i] < x || (orEqual && s[i] == x)) ==> Below(s, x, orEqual) == |s|
    ensures (forall i :: 0 <= i < |s| ==> !(s[i] < x || (orEqual && s[i] == x))) ==> Below(s, x, orEqual) == 0
  {
    if s != [] {
      BelowAll(s[1..], x, orEqual);
    }
  }

  lemma RealOrder()
    ensures TotalOrder(RealLe)
  {
  }

  /** In a sorted list, more than `k` values are up to the `k`-th one. */
  lemma {:induction false} AtMostCount(s: seq<real>, k: nat)
    requires Sorted(RealLe, s) && k < |s|
    ensures Below(s, s[k], true) >= k + 1
  {
    var a, b := s[..k + 1], s[k + 1..];
    BelowConcat(a, b, s[k], true);
    assert s == a + b;
    forall i | 0 <= i < |a| ensures a[i] < s[k] || a[i] == s[k] {
      if i < k {
        assert RealLe(s[i], s[k]);
      }
    }
    BelowAll(a, s[k], true);
  }

  /** And at most `k` values are strictly below it. */
  lemma {:induction false} StrictlyBelowCount(s: seq<real>, k: nat)
    requires Sorted(RealLe, s) && k < |s|
    ensures Below(s, s[k], false) <= k
  {
    var a, b := s[..k], s[k..];
    BelowConcat(a, b, s[k], false);
    assert s == a + b;
    forall i | 0 <= i < |b| ensures !(b[i] < s[k]) {
      if i > 0 {
        assert RealLe(s[k], s[k + i]);
      }
    }
    BelowAll(b, s[k], false);
    BelowAll(a, s[k], false);
  }

  lemma RankMeaning(n: nat, q: real)
    requires n >= 1 && 0.0 < q <= 1.0
    ensures 0 <= Rank(n, q) < n
    ensures Rank(n, q) as real < q * n as real <= (Rank(n, q) + 1) as real
  {
    var x := q * n as real;
    CeilBounds(x);
    assert 0.0 < x <= n as real by {
      assert (1.0 - q) * n as real >= 0.0;
    }
  }

  lemma {:induction false} BelowStrictStep(s: seq<real>, x: real, y: real)
    requires x < y
    ensures Below(s, x, true) <= Below(s, y, false)
  {
    if s != [] {
      BelowStrictStep(s[1..], x, y);
    }
  }

  /** At least `t` of the values are up to `x`, and fewer than `t` are below it. */
  ghost predicate AtThreshold(values: seq<real>, t: real, x: real) {
    && x in values
    && t <= Below(values, x, true) as real
    && (Below(values, x, false) as real) < t
  }

  /** The nearest-rank percentile, and the only value with this property. */
  ghost predicate NearestRank(values: seq<real>, q: real, x: real) {
    AtThreshold(values, q * |values| as real, x)
  }

  lemma {:induction false} SortedRankCounts(values: seq<real>, k: nat, x: real)
    requires k < |Sort(RealLe, values)| && x == Sort(RealLe, values)[k]
    ensures x in values && Below(values, x, true) >= k + 1 && Below(values, x, false) <= k
  {
    var s := Sort(RealLe, values);
    RealOrder();
    SortSorts(RealLe, values);
    AtMostCount(s, k);
    StrictlyBelowCount(s, k);
    BelowSorted(values, x, true);
    BelowSorted(values, x, false);
    assert x in multiset(s);
  }

  lemma ThresholdDecides(values: seq<real>, t: real, x: real, y: real)
    requires AtThreshold(values, t, x) && AtThreshold(values, t, y)
    ensures x == y
  {
    if x < y {
      BelowStrictStep(values, x, y);
    } else if y < x {
      BelowStrictStep(values, y, x);
    }
  }

  lemma {:induction false} PercentileAtRank(values: seq<real>, q: real)
    requires values != []
    ensures |Sort(RealLe, values)| == |values|
    ensures 0 <= Rank(|values|, q) < |values|
    ensures Percentile(values, q) == Sort(RealLe, values)[Rank(|values|, q)]
  {
    RealOrder();
    SortSorts(RealLe, values);
    assert |multiset(Sort(RealLe, values))| == |multiset(values)|;
  }

  lemma {:induction false} RankedAtThreshold(values: seq<real>, t: real, k: nat, x: real)
    requires k < |Sort(RealLe, values)| && x == Sort(RealLe, values)[k]
    requires k as real < t <= (k + 1) as real
    ensures AtThreshold(values, t, x)
  {
    SortedRankCounts(values, k, x);
    var m, l := Below(values, x, true), Below(values, x, false);
    assert (k + 1) as real <= m as real && l as real <= k as real;
  }

  lemma PercentileAtThreshold(values: seq<real>, q: real, t: real, k: int)
    requires values != [] && k == Rank(|values|, q)
    requires k as real < t <= (k + 1) as real
    ensures AtThreshold(values, t, Percentile(values, q))
  {
    PercentileAtRank(values, q);
    RankedAtThreshold(values, t, k, Percentile(values, q));
  }

  lemma PercentileIsNearestRank(values: seq<real>, q: real, x: real)
    requires values != [] && 0.0 < q <= 1.0
    ensures NearestRank(values, q, x) <==> x == Percentile(values, q)
  {
    var t := q * |values| as real;
    RankMeaning(|values|, q);
    PercentileAtThreshold(values, q, t, Rank(|values|, q));
    if AtThreshold(values, t, x) {
      ThresholdDecides(values, t, x, Percentile(values, q));
    }
  }

  lemma RankMonotone(n: nat, q: real, q': real)
    requires n >= 1 && q <= q'
    ensures 0 <= Rank(n, q) <= Rank(n, q') < n
  {
    assert (q' - q) * n as real >= 0.0;
    assert q * n as real <= q' * n as real;
    CeilBounds(q * n as real);
    CeilBounds(q' * n as real);
  }

  /** Percentiles grow with the quantile, also outside 0..1, where the rank is clamped. */
  lemma PercentileMonotone(values: seq<real>, q: real, q': real)
    requires q <= q'
    ensures Percentile(values, q) <= Percentile(values, q')
  {
    if values != [] {
      RealOrder();
      SortSorts(RealLe, values);
      var s := Sort(RealLe, values);
      RankMonotone(|s|, q, q');
      if Rank(|s|, q) < Rank(|s|, q') {
        assert RealLe(s[Rank(|s|, q)], s[Rank(|s|, q')]);
      }
    }
  }

  datatype Distribution = Distribution(p50: real, p95: real, p99: real)

  lemma DistributionIsNearestRank(latencies: seq<real>)
    ensures latencies != [] ==>
              && NearestRank(latencies, 0.50, Percentile(latencies, 0.50))
              && NearestRank(latencies, 0.95, Percentile(latencies, 0.95))
              && NearestRank(latencies, 0.99, Percentile(latencies, 0.99))
  {
    if latencies != [] {
      PercentileIsNearestRank(latencies, 0.50, Percentile(latencies, 0.50));
      PercentileIsNearestRank(latencies, 0.95, Percentile(latencies, 0.95));
      PercentileIsNearestRank(latencies, 0.99, Percentile(latencies, 0.99));
    }
  }

  function DistributionOf(latencies: seq<real>): (d: Distribution)
    ensures d.p50 <= d.p95 <= d.p99
    ensures latencies == [] ==> d == Distribution(0.0, 0.0, 0.0)
    ensures latencies != [] ==> NearestRank(latencies, 0.50, d.p50) && NearestRank(latencies, 0.95, d.p95) && NearestRank(latencies, 0.99, d.p99)
  {
    DistributionIsNearestRank(latencies);
    PercentileMonotone(latencies, 0.50, 0.95);
    PercentileMonotone(latencies, 0.95, 0.99);
    Distribution(Percentile(latencies, 0.50), Percentile(latencies, 0.95), Percentile(latencies, 0.99))
  }

  // ---------- The coordinator ----------

  datatype Counters = Counters(connected: int, peak: int, allReady: bool)

  /** Clients are numbered; each one's enter and leave are atomic. */
  datatype Event = Enter(client: nat) | Leave(client: nat)

  function Step(c: Counters, expected: int, e: Event): Counters {
    match e
    case Enter(_) =>
      var connected := c.connected + 1;
      Counters(connected, if c.peak < connected then connected else c.peak, c.allReady || connected == expected)
    case Leave(_) => c.(connected := c.connected - 1)
  }

  class SSECoordinator {
    const expected: int
    var connected: int
    var peak: int
    var allReady: bool

    constructor (expected: int)
      ensures this.expected == expected && Value() == Counters(0, 0, false)
    {
      this.expected := expected;
      connected, peak, allReady := 0, 0, false;
    }

    function Value(): Counters
      reads this
    {
      Counters(connected, peak, allReady)
    }

    method EnterClient(ghost client: nat)
      modifies this
      ensures Value() == Step(old(Value()), expected, Enter(client))
    {
      connected := connected + 1;
      peak := if peak < connected then connected else peak;
      if connected == expected {
        allReady := true;
      }
    }

    method LeaveClient(ghost client: nat)
      modifies this
      ensures Value() == Step(old(Value()), expected, Leave(client))
    {
      connected := connected - 1;
    }
  }

  function After(expected: int, events: seq<Event>): Counters {
    if events == [] then Counters(0, 0, false) else Step(After(expected, events[..|events| - 1]), expected, events[|events| - 1])
  }

  /** Who is connected after the events. */
  function Connected(events: seq<Event>): set<nat> {
    if events == [] then {}
    else
      var before := Connected(events[..|events| - 1]);
      match events[|events| - 1]
      case Enter(c) => before + {c}
      case Leave(c) => before - {c}
  }

  /** Each of the `expected` clients enters at most once, and leaves only after entering, once. */
  ghost predicate Orderly(expected: nat, events: seq<Event>) {
    events == [] ||
    var front, last := events[..|events| - 1], events[|events| - 1];
    && Orderly(expected, front)
    && match last
       case Enter(c) => c < expected && Enter(c) !in front
       case Leave(c) => c in Connected(front)
  }

  function Clients(expected: nat): (clients: set<nat>)
    ensures forall c: nat :: c in clients <==> c < expected
  {
    if expected == 0 then {} else Clients(expected - 1) + {expected - 1}
  }

  lemma {:induction false} ClientCount(expected: nat)
    ensures |Clients(expected)| == expected
  {
    if expected > 0 {
      ClientCount(expected - 1);
    }
  }

  ghost predicate AllAtOnce(expected: nat, events: seq<Event>) {
    exists k :: 0 <= k <= |events| && Connected(events[..k]) == Clients(expected)
  }

  lemma {:induction false} OrderlyMembers(expected: nat, events: seq<Event>)
    requires Orderly(expected, events)
    ensures Connected(events) <= Clients(expected)
    ensures forall c :: c in Connected(events) ==> Enter(c) in events
  {
    if events != [] {
      OrderlyMembers(expected, events[..|events| - 1]);
    }
  }

  lemma {:induction false} OrderlyCounts(expected: nat, events: seq<Event>)
    requires Orderly(expected, events)
    ensures After(expected, events).connected == |Connected(events)|
    ensures |Connected(events)| <= After(expected, events).peak <= expected
  {
    OrderlyMembers(expected, events);
    ClientCount(expected);
    SubsetOfEqualSize(Connected(events), Clients(expected));
    if events != [] {
      var front := events[..|events| - 1];
      OrderlyCounts(expected, front);
      OrderlyMembers(expected, front);
    }
  }

  lemma ConnectedBefore(events: seq<Event>, k: nat)
    requires k < |events|
    ensures Connected(events[..k]) == Connected(events[..|events| - 1][..k])
  {
    assert events[..k] == events[..|events| - 1][..k];
  }

  lemma {:induction false} AllAtOnceStep(expected: nat, events: seq<Event>)
    requires events != []
    ensures AllAtOnce(expected, events) <==>
              AllAtOnce(expected, events[..|events| - 1]) || Connected(events) == Clients(expected)
  {
    var front := events[..|events| - 1];
    assert events[..|events|] == events;
    if AllAtOnce(expected, front) {
      var k :| 0 <= k <= |front| && Connected(front[..k]) == Clients(expected);
      ConnectedBefore(events, k);
    }
    if AllAtOnce(expected, events) {
      var k :| 0 <= k <= |events| && Connected(events[..k]) == Clients(expected);
      if k < |events| {
        ConnectedBefore(events, k);
      }
    }
  }

  lemma {:induction false} AllConnectedIff(expected: nat, events: seq<Event>)
    requires Orderly(expected, events)
    ensures Connected(events) == Clients(expected) <==> After(expected, events).connected == expected
  {
    OrderlyCounts(expected, events);
    OrderlyMembers(expected, events);
    ClientCount(expected);
    SubsetOfEqualSize(Connected(events), Clients(expected));
  }

  /**
   Over every interleaving, the reported peak equals the number of clients
   exactly if all of them were connected at the same time, exactly if the
   readiness event was set.
   */
  lemma {:induction false} PeakIffAllAtOnce(expected: nat, events: seq<Event>)
    requires expected >= 1 && Orderly(expected, events)
    ensures After(expected, events).peak == expected <==> AllAtOnce(expected, events)
    ensures After(expected, events).allReady <==> AllAtOnce(expected, events)
  {
    if events == [] {
      assert 0 in Clients(expected);
    } else {
      var front := events[..|events| - 1];
      PeakIffAllAtOnce(expected, front);
      AllAtOnceStep(expected, events);
      AllConnectedIff(expected, events);
      OrderlyCounts(expected, front);
      OrderlyCounts(expected, events);
    }
  }
}
