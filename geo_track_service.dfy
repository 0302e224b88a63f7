/** The hysteresis motion classifier: each accepted position extends a time window
    of positions; the window's spread and average speed give a candidate status,
    which is committed only after `ConfirmCount` consecutive observations. */
module GeoTracking {
  import opened Common
  import opened DeviceWindows

  /** The tuning knobs of the classifier. */
  datatype TrackingOptions = TrackingOptions(
    windowSeconds: real,
    maxDistanceStationaryMeters: real,
    speedThresholdMovingMps: real,
    speedThresholdStationaryMps: real,
    confirmCount: int,
    outlierJumpMeters: real,
    minPoints: int)

  /** The defaults of `TrackingOptions`. */
  function DefaultOptions(): TrackingOptions {
    TrackingOptions(
      windowSeconds := 10.0,
      maxDistanceStationaryMeters := 10.0,
      speedThresholdMovingMps := 1.0,
      speedThresholdStationaryMps := 0.5,
      confirmCount := 2,
      outlierJumpMeters := 200.0,
      minPoints := 3)
  }

  /** `TimeSpan.FromSeconds(WindowSeconds)` in ticks, truncated toward zero. */
  function WindowTicks(o: TrackingOptions): (t: int)
    ensures o.windowSeconds >= 0.0 ==> t >= 0
  {
    var x := o.windowSeconds * TicksPerSecond as real;
    if x >= 0.0 then x.Floor else -((-x).Floor)
  }

  /** The distance from `a` to `b`. */
  function Distance(dist: Haversine, a: Position, b: Position): real {
    dist(a.lat, a.lng, b.lat, b.lng)
  }

  // ---------------------------------------------------------------- outlier rejection

  /** The arriving position is rejected when it follows a stored position after some time has elapsed
      and the implied speed exceeds `OutlierJumpMeters` (a speed is compared with a field named in metres). */
  predicate IsJump(o: TrackingOptions, dist: Haversine, positions: seq<Position>, p: Position) {
    && positions != []
    && var last := positions[|positions| - 1];
       var seconds := ElapsedSeconds(last.timestamp, p.timestamp);
       seconds > 0.0 && Distance(dist, last, p) / seconds > o.outlierJumpMeters
  }

  // ---------------------------------------------------------------- trimming

  /** The index of the first position at or after `i` that is not older than `threshold` (`|ps|` if
      there is none): the number of positions the front trim removes, counted from `i`. */
  function LeadingStale(ps: seq<Position>, threshold: int, i: int): (k: int)
    requires 0 <= i <= |ps|
    ensures i <= k <= |ps|
    decreases |ps| - i
  {
    if i == |ps| || ps[i].timestamp >= threshold then i else LeadingStale(ps, threshold, i + 1)
  }

  /** Counting resumes where it stopped: every position skipped on the way is older than `threshold`,
      and the one it stops at is not. */
  lemma {:induction false} LeadingStaleStops(ps: seq<Position>, threshold: int, i: int)
    requires 0 <= i <= |ps|
    ensures var k := LeadingStale(ps, threshold, i);
            && (k < |ps| ==> ps[k].timestamp >= threshold)
            && (forall j :: i <= j < k ==> ps[j].timestamp < threshold)
    decreases |ps| - i
  {
    if i < |ps| && ps[i].timestamp < threshold {
      LeadingStaleStops(ps, threshold, i + 1);
    }
  }

  /** Removes positions from the front while the first one is older than `threshold`. */
  function TrimFront(ps: seq<Position>, threshold: int): seq<Position> {
    ps[LeadingStale(ps, threshold, 0)..]
  }

  /** The window after trimming against its newest appended position. */
  function Trimmed(o: TrackingOptions, ps: seq<Position>): seq<Position> {
    if ps == [] then [] else TrimFront(ps, ps[|ps| - 1].timestamp - WindowTicks(o))
  }

  /** With a non-negative window the newest position always survives, and only positions older than it
      by more than the window are removed. */
  lemma TrimmedKeepsNewest(o: TrackingOptions, ps: seq<Position>)
    ensures var r := Trimmed(o, ps);
            && (o.windowSeconds >= 0.0 && ps != [] ==> r != [] && r[|r| - 1] == ps[|ps| - 1])
            && (forall i :: 0 <= i < |ps| - |r| ==> ps[i].timestamp < ps[|ps| - 1].timestamp - WindowTicks(o))
            && (r != [] ==> r[0].timestamp >= ps[|ps| - 1].timestamp - WindowTicks(o))
  {
    if ps != [] {
      LeadingStaleStops(ps, ps[|ps| - 1].timestamp - WindowTicks(o), 0);
    }
  }

  /** Timestamps never decrease along the sequence. */
  predicate Chronological(ps: seq<Position>) {
    forall i, j :: 0 <= i < j < |ps| ==> ps[i].timestamp <= ps[j].timestamp
  }

  lemma ChronologicalAppend(ps: seq<Position>, p: Position)
    requires Chronological(ps) && (ps != [] ==> ps[|ps| - 1].timestamp <= p.timestamp)
    ensures Chronological(ps + [p])
  {
    var q := ps + [p];
    forall i, j | 0 <= i < j < |q| ensures q[i].timestamp <= q[j].timestamp {
      if j == |ps| {
        assert q[i].timestamp <= ps[|ps| - 1].timestamp;
      }
    }
  }

  lemma ChronologicalSuffix(q: seq<Position>, k: nat)
    requires Chronological(q) && k <= |q|
    ensures Chronological(q[k..])
  {
    var r := q[k..];
    forall i, j | 0 <= i < j < |r| ensures r[i].timestamp <= r[j].timestamp {
      assert r[i] == q[k + i] && r[j] == q[k + j];
    }
  }

  /** When positions arrive in time order the window stays in time order, ends with the newest
      position, and retains nothing older than the newest one minus the window. */
  lemma WindowBoundInOrder(o: TrackingOptions, ps: seq<Position>, p: Position)
    requires o.windowSeconds >= 0.0
    requires Chronological(ps) && (ps != [] ==> ps[|ps| - 1].timestamp <= p.timestamp)
    ensures var r := Trimmed(o, ps + [p]);
            && Chronological(r) && r != [] && r[|r| - 1] == p
            && forall i :: 0 <= i < |r| ==> r[i].timestamp >= p.timestamp - WindowTicks(o)
  {
    var q := ps + [p];
    ChronologicalAppend(ps, p);
    TrimmedKeepsNewest(o, q);
    var r := Trimmed(o, q);
    ChronologicalSuffix(q, |q| - |r|);
    assert r[0].timestamp >= p.timestamp - WindowTicks(o);
  }

  // ---------------------------------------------------------------- metrics

  /** The sum of the distances between consecutive positions among the first `n`. */
  function PathUpTo(dist: Haversine, ps: seq<Position>, n: int): real
    requires 0 <= n <= |ps|
  {
    if n < 2 then 0.0 else PathUpTo(dist, ps, n - 1) + Distance(dist, ps[n - 2], ps[n - 1])
  }

  /** The sum of the distances between consecutive positions. */
  function PathLength(dist: Haversine, ps: seq<Position>): real {
    PathUpTo(dist, ps, |ps|)
  }

  /** The largest distance from a position of `ps` to `x`, or 0 when none is larger. */
  function MaxDistanceTo(dist: Haversine, ps: seq<Position>, x: Position): (m: real)
    ensures m >= 0.0
    ensures forall a :: 0 <= a < |ps| ==> Distance(dist, ps[a], x) <= m
    ensures m == 0.0 || exists a :: 0 <= a < |ps| && Distance(dist, ps[a], x) == m
  {
    if ps == [] then 0.0
    else
      var rest := MaxDistanceTo(dist, ps[..|ps| - 1], x);
      var d := Distance(dist, ps[|ps| - 1], x);
      assert forall a :: 0 <= a < |ps| - 1 ==> ps[..|ps| - 1][a] == ps[a];
      if d > rest then d else rest
  }

  /** The value a pairwise maximum search starting from 0 ends with: not negative, no pair farther
      apart, and either 0 or the distance of some pair. */
  ghost predicate IsMaxPair(dist: Haversine, ps: seq<Position>, m: real) {
    && m >= 0.0
    && (forall a, b :: 0 <= a < b < |ps| ==> Distance(dist, ps[a], ps[b]) <= m)
    && (m == 0.0 || exists a, b :: 0 <= a < b < |ps| && Distance(dist, ps[a], ps[b]) == m)
  }

  /** Extending a window by one position: the new maximum is the larger of the old maximum and the
      largest distance to the new position. */
  lemma {:induction false} MaxPairStep(dist: Haversine, ps: seq<Position>, rest: real, toLast: real)
    requires |ps| >= 2
    requires IsMaxPair(dist, ps[..|ps| - 1], rest)
    requires toLast == MaxDistanceTo(dist, ps[..|ps| - 1], ps[|ps| - 1])
    ensures IsMaxPair(dist, ps, if toLast > rest then toLast else rest)
  {
    var init := ps[..|ps| - 1];
    var m := if toLast > rest then toLast else rest;
    assert forall a :: 0 <= a < |init| ==> init[a] == ps[a];
    forall a, b | 0 <= a < b < |ps| ensures Distance(dist, ps[a], ps[b]) <= m {
      if b < |ps| - 1 {
        assert Distance(dist, init[a], init[b]) <= rest;
      } else {
        assert Distance(dist, init[a], ps[|ps| - 1]) <= toLast;
      }
    }
    if m != 0.0 {
      if m == toLast {
        var a :| 0 <= a < |init| && Distance(dist, init[a], ps[|ps| - 1]) == m;
        assert Distance(dist, ps[a], ps[|ps| - 1]) == m;
      } else {
        var a, b :| 0 <= a < b < |init| && Distance(dist, init[a], init[b]) == m;
        assert Distance(dist, ps[a], ps[b]) == m;
      }
    }
  }

  /** The largest distance between two positions of the window (0 for fewer than two). */
  function MaxPairDistance(dist: Haversine, ps: seq<Position>): real {
    if |ps| < 2 then 0.0
    else
      var rest := MaxPairDistance(dist, ps[..|ps| - 1]);
      var toLast := MaxDistanceTo(dist, ps[..|ps| - 1], ps[|ps| - 1]);
      if toLast > rest then toLast else rest
  }

  /** The pairwise maximum is not negative, bounds every pair, and is 0 or the distance of some pair. */
  lemma {:induction false} MaxPairDistanceIsMax(dist: Haversine, ps: seq<Position>)
    ensures IsMaxPair(dist, ps, MaxPairDistance(dist, ps))
  {
    if |ps| >= 2 {
      var init := ps[..|ps| - 1];
      MaxPairDistanceIsMax(dist, init);
      MaxPairStep(dist, ps, MaxPairDistance(dist, init), MaxDistanceTo(dist, init, ps[|ps| - 1]));
    }
  }

  /** The characterisation of the pairwise maximum determines it. */
  lemma MaxPairUnique(dist: Haversine, ps: seq<Position>, m1: real, m2: real)
    requires IsMaxPair(dist, ps, m1) && IsMaxPair(dist, ps, m2)
    ensures m1 == m2
  {
    if m1 != 0.0 {
      var a, b :| 0 <= a < b < |ps| && Distance(dist, ps[a], ps[b]) == m1;
    }
    if m2 != 0.0 {
      var a, b :| 0 <= a < b < |ps| && Distance(dist, ps[a], ps[b]) == m2;
    }
  }

  datatype Metrics = Metrics(maxPairDistance: real, averageSpeed: real, spanSeconds: real)

  /** `ComputeMetrics` as a value: all zero below two positions; otherwise the pairwise maximum, the path
      length over the span, and the span from oldest to newest floored at 1 s. */
  function MetricsOf(dist: Haversine, ps: seq<Position>): Metrics {
    if |ps| < 2 then Metrics(0.0, 0.0, 0.0)
    else
      var seconds := ElapsedSeconds(ps[0].timestamp, ps[|ps| - 1].timestamp);
      var span := if 1.0 >= seconds then 1.0 else seconds;
      Metrics(MaxPairDistance(dist, ps), PathLength(dist, ps) / span, span)
  }

  /** What the metrics mean: zeros below two positions; otherwise a span of at least one second that is
      the elapsed time whenever that exceeds a second, the average speed over it, and the largest
      pairwise distance. */
  lemma MetricsOfMeaning(dist: Haversine, ps: seq<Position>)
    ensures var m := MetricsOf(dist, ps);
      && (|ps| < 2 ==> m == Metrics(0.0, 0.0, 0.0))
      && (|ps| >= 2 ==>
        && m.spanSeconds >= 1.0
        && m.spanSeconds >= ElapsedSeconds(ps[0].timestamp, ps[|ps| - 1].timestamp)
        && (m.spanSeconds == 1.0 || m.spanSeconds == ElapsedSeconds(ps[0].timestamp, ps[|ps| - 1].timestamp))
        && m.averageSpeed == PathLength(dist, ps) / m.spanSeconds
        && IsMaxPair(dist, ps, m.maxPairDistance))
  {
    MaxPairDistanceIsMax(dist, ps);
  }

  /** Every pair whose first index is below `i`, and every pair `(i, b)` with `b < j`, is at most `m` apart. */
  ghost predicate PairsBounded(dist: Haversine, ps: seq<Position>, i: int, j: int, m: real) {
    && (forall a, b :: 0 <= a < i && a < b < |ps| ==> Distance(dist, ps[a], ps[b]) <= m)
    && (forall b :: 0 <= i < b < j && b < |ps| ==> Distance(dist, ps[i], ps[b]) <= m)
  }

  /** `m` is 0 or the distance of some pair. */
  ghost predicate Attained(dist: Haversine, ps: seq<Position>, m: real) {
    m == 0.0 || exists a, b :: 0 <= a < b < |ps| && Distance(dist, ps[a], ps[b]) == m
  }

  /** Comparing pair `(i, j)` with the running maximum extends what it bounds by that pair. */
  lemma PairsBoundedStep(dist: Haversine, ps: seq<Position>, i: int, j: int, m: real)
    requires 0 <= i < j < |ps| && m >= 0.0
    requires PairsBounded(dist, ps, i, j, m) && Attained(dist, ps, m)
    ensures var d := Distance(dist, ps[i], ps[j]);
            var m' := if d > m then d else m;
            m' >= 0.0 && PairsBounded(dist, ps, i, j + 1, m') && Attained(dist, ps, m')
  {
  }

  /** Once row `i` is done, every pair whose first index is at most `i` is bounded. */
  lemma PairsBoundedRow(dist: Haversine, ps: seq<Position>, i: int, m: real)
    requires 0 <= i < |ps| && PairsBounded(dist, ps, i, |ps|, m)
    ensures PairsBounded(dist, ps, i + 1, i + 2, m)
  {
  }

  /** A maximum that bounds every pair and is attained is the pairwise maximum. */
  lemma PairsBoundedMax(dist: Haversine, ps: seq<Position>, m: real)
    requires m >= 0.0 && PairsBounded(dist, ps, |ps|, |ps| + 1, m) && Attained(dist, ps, m)
    ensures IsMaxPair(dist, ps, m) && m == MaxPairDistance(dist, ps)
  {
    MaxPairDistanceIsMax(dist, ps);
    MaxPairUnique(dist, ps, m, MaxPairDistance(dist, ps));
  }

  /** `ComputeMetrics(positions)`: the metrics of the window, by one pass over consecutive pairs and a
      nested pass over all pairs (the two loops are the methods below). */
  method ComputeMetrics(dist: Haversine, list: seq<Position>)
    returns (maxPairDistance: real, averageSpeed: real, spanSeconds: real)
    ensures Metrics(maxPairDistance, averageSpeed, spanSeconds) == MetricsOf(dist, list)
  {
    if |list| < 2 {
      return 0.0, 0.0, 0.0;
    }

    var totalDistance := TotalDistance(dist, list);
    var maxPair := MaxPair(dist, list);
    var seconds := ElapsedSeconds(list[0].timestamp, list[|list| - 1].timestamp);
    spanSeconds := if 1.0 >= seconds then 1.0 else seconds;
    averageSpeed := totalDistance / spanSeconds;
    maxPairDistance := maxPair;
  }

  /** The first loop of `ComputeMetrics`: the sum of the distances between consecutive positions. */
  method TotalDistance(dist: Haversine, list: seq<Position>) returns (totalDistance: real)
    ensures totalDistance == PathLength(dist, list)
  {
    totalDistance := 0.0;
    if |list| < 2 {
      return;
    }
    for i := 1 to |list|
      invariant totalDistance == PathUpTo(dist, list, i)
    {
      totalDistance := totalDistance + Distance(dist, list[i - 1], list[i]);
    }
  }

  /** The nested loops of `ComputeMetrics`: the largest distance between two positions, starting from 0. */
  method MaxPair(dist: Haversine, list: seq<Position>) returns (maxPair: real)
    ensures maxPair == MaxPairDistance(dist, list)
    ensures IsMaxPair(dist, list, maxPair)
  {
    maxPair := 0.0;
    for i := 0 to |list|
      invariant maxPair >= 0.0 && Attained(dist, list, maxPair)
      invariant PairsBounded(dist, list, i, i + 1, maxPair)
    {
      for j := i + 1 to |list|
        invariant maxPair >= 0.0 && Attained(dist, list, maxPair)
        invariant PairsBounded(dist, list, i, j, maxPair)
      {
        PairsBoundedStep(dist, list, i, j, maxPair);
        var distance := Distance(dist, list[i], list[j]);
        if distance > maxPair {
          maxPair := distance;
        }
      }
      PairsBoundedRow(dist, list, i, maxPair);
    }
    PairsBoundedMax(dist, list, maxPair);
  }

  // ---------------------------------------------------------------- decision

  /** `Decide(maxPairDistance, averageSpeed)`: Stationary when the window is both compact and slow, else
      Moving when fast enough, else Idle; never Unknown. */
  function Decide(o: TrackingOptions, maxPairDistance: real, averageSpeed: real): (s: DeviceStatus)
    ensures s == Stationary || s == Moving || s == Idle
    ensures s == Stationary <==>
      maxPairDistance <= o.maxDistanceStationaryMeters && averageSpeed <= o.speedThresholdStationaryMps
    ensures s == Moving <==>
      !(maxPairDistance <= o.maxDistanceStationaryMeters && averageSpeed <= o.speedThresholdStationaryMps)
      && averageSpeed >= o.speedThresholdMovingMps
  {
    if maxPairDistance <= o.maxDistanceStationaryMeters && averageSpeed <= o.speedThresholdStationaryMps then
      Stationary
    else if averageSpeed >= o.speedThresholdMovingMps then
      Moving
    else
      Idle
  }

  // ---------------------------------------------------------------- hysteresis

  /** `ResetCounters`: every counter at zero. */
  function Zeroed(c: map<DeviceStatus, int>): (z: map<DeviceStatus, int>)
    ensures z.Keys == c.Keys && forall s :: s in z ==> z[s] == 0
  {
    map s | s in c :: 0
  }

  /** `IncrementCounter(candidate)`: the candidate's counter goes up by one, every other drops to zero. */
  function Bumped(c: map<DeviceStatus, int>, candidate: DeviceStatus): (b: map<DeviceStatus, int>)
    ensures b.Keys == c.Keys
    ensures forall s :: s in b && s != candidate ==> b[s] == 0
    ensures candidate in c ==> b[candidate] == c[candidate] + 1
  {
    map s | s in c :: if s == candidate then c[s] + 1 else 0
  }

  /** The commit rule: a candidate equal to the current status clears every counter; otherwise the
      candidate's counter is bumped, and once it reaches `confirmCount` the status switches to the
      candidate and every counter is cleared. */
  function Hysteresis(confirmCount: int, status: DeviceStatus, counters: map<DeviceStatus, int>,
                      candidate: DeviceStatus): (DeviceStatus, map<DeviceStatus, int>)
    requires candidate in counters
  {
    if candidate == status then (status, Zeroed(counters))
    else
      var bumped := Bumped(counters, candidate);
      if bumped[candidate] >= confirmCount then (candidate, Zeroed(bumped)) else (status, bumped)
  }

  /** The counters stay well formed: at most one of them is ever non-zero. */
  lemma HysteresisKeepsCountersOk(confirmCount: int, status: DeviceStatus, counters: map<DeviceStatus, int>,
                                  candidate: DeviceStatus)
    requires CountersOk(counters) && candidate in counters
    ensures CountersOk(Hysteresis(confirmCount, status, counters, candidate).1)
  {
  }

  /** The status changes only to the candidate, only once its counter reaches `confirmCount`, and a
      change leaves every counter at zero; a candidate equal to the status clears every counter. */
  lemma HysteresisCommitRule(confirmCount: int, status: DeviceStatus, counters: map<DeviceStatus, int>,
                             candidate: DeviceStatus)
    requires candidate in counters
    ensures var (s, c) := Hysteresis(confirmCount, status, counters, candidate);
            && (candidate == status ==> s == status && c == Zeroed(counters))
            && (s != status <==> candidate != status && counters[candidate] + 1 >= confirmCount)
            && (s != status ==> s == candidate && c == Zeroed(counters))
            && (s == status && candidate != status ==> c == Bumped(counters, candidate))
  {
    if candidate != status {
      var bumped := Bumped(counters, candidate);
      assert Zeroed(bumped) == Zeroed(counters);
    }
  }

  /** With `confirmCount == 2` and clear counters, a single differing candidate leaves the status alone
      and a second consecutive one commits it. */
  lemma {:induction false} TwoConsecutiveCandidatesCommit(status: DeviceStatus, counters: map<DeviceStatus, int>,
                                                           candidate: DeviceStatus)
    requires candidate in counters && candidate != status
    requires forall s :: s in counters ==> counters[s] == 0
    ensures var (s1, c1) := Hysteresis(2, status, counters, candidate);
            && s1 == status && candidate in c1 && c1[candidate] == 1
            && Hysteresis(2, s1, c1, candidate) == (candidate, Zeroed(counters))
  {
    var (s1, c1) := Hysteresis(2, status, counters, candidate);
    assert s1 == status && c1 == Bumped(counters, candidate);
    var bumped := Bumped(c1, candidate);
    assert Zeroed(bumped) == Zeroed(counters);
  }

  /** A streak is broken by a different candidate: the new candidate's counter starts again at one. */
  lemma StreakRestarts(confirmCount: int, status: DeviceStatus, counters: map<DeviceStatus, int>,
                       x: DeviceStatus, y: DeviceStatus)
    requires x in counters && y in counters && x != y && x != status && y != status
    requires confirmCount > 1 && counters[x] + 1 < confirmCount
    ensures var (s1, c1) := Hysteresis(confirmCount, status, counters, x);
            s1 == status && Hysteresis(confirmCount, s1, c1, y).1[y] == 1
  {
  }

  // ---------------------------------------------------------------- one observation

  /** The candidate status of a window: `Decide` applied to its metrics. */
  function Classify(o: TrackingOptions, dist: Haversine, ps: seq<Position>): (s: DeviceStatus)
    ensures s == Stationary || s == Moving || s == Idle
  {
    var m := MetricsOf(dist, ps);
    Decide(o, m.maxPairDistance, m.averageSpeed)
  }

  /** The effect of `OnPosition` on a window, and the status it returns. */
  function Observe(o: TrackingOptions, dist: Haversine, w: WindowState, p: Position): (WindowState, DeviceStatus)
    requires CountersOk(w.counters)
  {
    if IsJump(o, dist, w.positions, p) then (w, w.status)
    else
      var ps := Trimmed(o, w.positions + [p]);
      if |ps| < o.minPoints then (w.(positions := ps), w.status)
      else
        var next := Hysteresis(o.confirmCount, w.status, w.counters, Classify(o, dist, ps));
        (WindowState(ps, next.0, next.1), next.0)
  }

  /** A position that is not a jump and leaves enough positions is classified, and the commit rule is
      applied to the resulting candidate. */
  lemma ObserveClassifies(o: TrackingOptions, dist: Haversine, w: WindowState, p: Position)
    requires CountersOk(w.counters) && !IsJump(o, dist, w.positions, p)
    requires |Trimmed(o, w.positions + [p])| >= o.minPoints
    ensures var ps := Trimmed(o, w.positions + [p]);
            var next := Hysteresis(o.confirmCount, w.status, w.counters, Classify(o, dist, ps));
            Observe(o, dist, w, p) == (WindowState(ps, next.0, next.1), next.0)
  {
  }

  /** The status returned is always the window's status afterwards. */
  lemma ObserveReturnsStatus(o: TrackingOptions, dist: Haversine, w: WindowState, p: Position)
    requires CountersOk(w.counters)
    ensures Observe(o, dist, w, p).1 == Observe(o, dist, w, p).0.status
  {
  }

  /** A jump leaves the window exactly as it was and returns the current status. */
  lemma ObserveRejectsJump(o: TrackingOptions, dist: Haversine, w: WindowState, p: Position)
    requires CountersOk(w.counters) && IsJump(o, dist, w.positions, p)
    ensures Observe(o, dist, w, p) == (w, w.status)
  {
  }

  /** A position that does not arrive later than the last stored one is never rejected: it is appended
      and survives the trim. */
  lemma ObserveAcceptsWithoutElapsedTime(o: TrackingOptions, dist: Haversine, w: WindowState, p: Position)
    requires CountersOk(w.counters) && o.windowSeconds >= 0.0
    requires w.positions != [] && p.timestamp <= w.positions[|w.positions| - 1].timestamp
    ensures var ps := Observe(o, dist, w, p).0.positions;
            ps == Trimmed(o, w.positions + [p]) && ps != [] && ps[|ps| - 1] == p
  {
    TrimmedKeepsNewest(o, w.positions + [p]);
  }

  /** With fewer than `MinPoints` positions after trimming, the status and the counters stay. */
  lemma ObserveTooFewPoints(o: TrackingOptions, dist: Haversine, w: WindowState, p: Position)
    requires CountersOk(w.counters) && !IsJump(o, dist, w.positions, p)
    requires |Trimmed(o, w.positions + [p])| < o.minPoints
    ensures Observe(o, dist, w, p) == (w.(positions := Trimmed(o, w.positions + [p])), w.status)
  {
  }

  /** Every observation keeps the counters well formed, moves the status only to a decided status (never
      back to `Unknown`), and keeps no more positions than it had plus one. */
  lemma ObserveKeepsInvariant(o: TrackingOptions, dist: Haversine, w: WindowState, p: Position)
    requires CountersOk(w.counters)
    ensures var w' := Observe(o, dist, w, p).0;
            && CountersOk(w'.counters)
            && (w'.status == w.status || w'.status in CountedStatuses)
            && |w'.positions| <= |w.positions| + 1
  {
    if IsJump(o, dist, w.positions, p) {
      ObserveRejectsJump(o, dist, w, p);
    } else {
      var ps := Trimmed(o, w.positions + [p]);
      if |ps| < o.minPoints {
        ObserveTooFewPoints(o, dist, w, p);
      } else {
        ObserveClassifies(o, dist, w, p);
        HysteresisKeepsCountersOk(o.confirmCount, w.status, w.counters, Classify(o, dist, ps));
      }
    }
  }

  /** The classifier's state after a run of positions. */
  function ObserveAll(o: TrackingOptions, dist: Haversine, w: WindowState, ps: seq<Position>): (r: WindowState)
    requires CountersOk(w.counters)
    ensures CountersOk(r.counters)
    decreases |ps|
  {
    if ps == [] then w
    else
      ObserveKeepsInvariant(o, dist, w, ps[0]);
      ObserveAll(o, dist, Observe(o, dist, w, ps[0]).0, ps[1..])
  }

  /** Fewer positions than `MinPoints` from a fresh window never leave `Unknown`. */
  lemma {:induction false} TooFewPositionsStayUnknown(o: TrackingOptions, dist: Haversine, w: WindowState,
                                                      ps: seq<Position>)
    requires CountersOk(w.counters) && w.status == Unknown
    requires |w.positions| + |ps| < o.minPoints
    decreases |ps|
    ensures ObserveAll(o, dist, w, ps).status == Unknown
  {
    if ps != [] {
      ObserveKeepsInvariant(o, dist, w, ps[0]);
      var w' := Observe(o, dist, w, ps[0]).0;
      if !IsJump(o, dist, w.positions, ps[0]) {
        assert |Trimmed(o, w.positions + [ps[0]])| <= |w.positions| + 1;
      }
      TooFewPositionsStayUnknown(o, dist, w', ps[1..]);
    }
  }

  /** Out-of-order arrival defeats the window bound: a position 150 s older than the last one is
      appended, the trim measured from it removes nothing, and the window keeps a position far more
      than `WindowSeconds` newer than the one it ends with. */
  lemma OutOfOrderKeepsStalePosition(dist: Haversine)
    ensures var a := Position(10.0, 20.0, 200 * TicksPerSecond);
            var b := Position(10.0, 20.0, 50 * TicksPerSecond);
            var w := WindowState([a], Stationary, InitialCounters());
            var w' := Observe(DefaultOptions(), dist, w, b).0;
            w'.positions == [a, b] && b.timestamp < a.timestamp - WindowTicks(DefaultOptions())
  {
    var a := Position(10.0, 20.0, 200 * TicksPerSecond);
    var b := Position(10.0, 20.0, 50 * TicksPerSecond);
    assert WindowTicks(DefaultOptions()) == 10 * TicksPerSecond;
    assert [a] + [b] == [a, b];
  }

  // ---------------------------------------------------------------- the service

  class GeoTrackService {
    const store: InMemoryDeviceWindowStore
    const options: TrackingOptions
    const dist: Haversine

    ghost predicate Valid()
      reads this, store, store.windows.Values
    {
      store.Valid()
    }

    constructor (store: InMemoryDeviceWindowStore, options: TrackingOptions, dist: Haversine)
      ensures this.store == store && this.options == options && this.dist == dist
    {
      this.store := store;
      this.options := options;
      this.dist := dist;
    }

    /** `OnPosition(deviceId, position)`: a blank id fails before any window is looked up; otherwise the
        device's window (created on first sight) takes one `Observe` step and its status is returned. No
        other device's window changes. */
    method OnPosition(deviceId: string, position: Position) returns (r: Result<DeviceStatus>)
      requires Valid()
      modifies store, store.windows.Values
      ensures Valid()
      ensures IsBlank(deviceId) ==> r.Failure? && unchanged(store) && unchanged(store.windows.Values)
      ensures !IsBlank(deviceId) ==>
        var key := Fold(deviceId);
        && key in store.windows && r.Success?
        && (key in old(store.windows) ==> store.windows == old(store.windows))
        && (key !in old(store.windows) ==> store.windows == old(store.windows)[key := store.windows[key]])
        && var before := if key in old(store.windows) then old(store.windows[key].State()) else InitialState();
           CountersOk(before.counters)
           && (store.windows[key].State(), r.value) == Observe(options, dist, before, position)
      ensures !IsBlank(deviceId) ==>
        forall w :: w in old(store.windows.Values) && w != store.windows[Fold(deviceId)] ==> unchanged(w)
    {
      if IsBlank(deviceId) {
        return Failure("Device id is required.");
      }

      var window := store.Get(deviceId);
      ghost var windows := store.windows;
      var status := Locked(window, position);
      assert store.windows == windows;
      forall k | k in windows ensures windows[k].Valid() {
        if windows[k] != window {
          assert unchanged(windows[k]);
        }
      }
      return Success(status);
    }

    /** The body of the `lock (window)` block of `OnPosition`: reject a jump, append and trim, and with
        enough positions classify the window and apply the commit rule. */
    method Locked(window: DeviceWindow, position: Position) returns (status: DeviceStatus)
      requires window.Valid()
      modifies window
      ensures (window.State(), status) == Observe(options, dist, old(window.State()), position)
      ensures window.Valid()
    {
      ghost var before := window.State();
      var jump := JumpsFrom(window.positions, position);
      if jump {
        ObserveRejectsJump(options, dist, before, position);
        ObserveKeepsInvariant(options, dist, before, position);
        return window.currentStatus;
      }

      window.positions := window.positions + [position];
      Trim(window);
      ghost var ps := Trimmed(options, before.positions + [position]);
      assert window.positions == ps;
      assert window.currentStatus == before.status;
      assert window.confirmCounters == before.counters;

      if |window.positions| < options.minPoints {
        ObserveTooFewPoints(options, dist, before, position);
        ObserveKeepsInvariant(options, dist, before, position);
        return window.currentStatus;
      }

      var maxPairDistance, averageSpeed, spanSeconds := ComputeMetrics(dist, window.positions);
      var candidate := Decide(options, maxPairDistance, averageSpeed);
      assert candidate == Classify(options, dist, window.positions);
      assert window.confirmCounters == before.counters;
      Commit(window, candidate);
      ObserveClassifies(options, dist, before, position);
      ObserveKeepsInvariant(options, dist, before, position);
      return window.currentStatus;
    }

    /** The outlier test of `OnPosition`: with a stored position and some elapsed time, compare the
        implied speed with `OutlierJumpMeters`. */
    method JumpsFrom(positions: seq<Position>, position: Position) returns (jump: bool)
      ensures jump == IsJump(options, dist, positions, position)
    {
      if |positions| > 0 {
        var last := positions[|positions| - 1];
        var seconds := ElapsedSeconds(last.timestamp, position.timestamp);
        if seconds > 0.0 {
          var distance := Distance(dist, last, position);
          var speed := distance / seconds;
          if speed > options.outlierJumpMeters {
            return true;
          }
        }
      }
      return false;
    }

    /** The commit step of `OnPosition`: a candidate other than the current status bumps its counter
        and, on reaching `ConfirmCount`, becomes the status and clears every counter; a candidate equal
        to the current status clears every counter. */
    method Commit(window: DeviceWindow, candidate: DeviceStatus)
      requires candidate in window.confirmCounters
      modifies window`currentStatus, window`confirmCounters
      ensures (window.currentStatus, window.confirmCounters)
              == Hysteresis(options.confirmCount, old(window.currentStatus), old(window.confirmCounters), candidate)
    {
      if candidate != window.currentStatus {
        IncrementCounter(window, candidate);
        if window.confirmCounters[candidate] >= options.confirmCount {
          window.currentStatus := candidate;
          ResetCounters(window);
        }
      } else {
        ResetCounters(window);
      }
    }

    /** `Trim(window)`: drop positions from the front while they are older than the newest appended
        position minus the window. */
    method Trim(window: DeviceWindow)
      modifies window`positions
      ensures window.positions == Trimmed(options, old(window.positions))
    {
      if |window.positions| == 0 {
        return;
      }

      var threshold := window.positions[|window.positions| - 1].timestamp - WindowTicks(options);
      ghost var all := window.positions;
      ghost var i := 0;
      while |window.positions| > 0 && window.positions[0].timestamp < threshold
        invariant 0 <= i <= |all| && window.positions == all[i..]
        invariant LeadingStale(all, threshold, i) == LeadingStale(all, threshold, 0)
        decreases |window.positions|
      {
        window.positions := window.positions[1..];
        i := i + 1;
      }
    }

    /** `IncrementCounter(window, candidate)`: visit every counter, bumping the candidate's and
        clearing the others. */
    static method IncrementCounter(window: DeviceWindow, candidate: DeviceStatus)
      modifies window`confirmCounters
      ensures window.confirmCounters == Bumped(old(window.confirmCounters), candidate)
    {
      var keys := window.confirmCounters.Keys;
      var remaining := keys;
      while remaining != {}
        invariant remaining <= keys && window.confirmCounters.Keys == keys
        invariant forall k :: k in keys && k !in remaining ==>
          window.confirmCounters[k] == Bumped(old(window.confirmCounters), candidate)[k]
        invariant forall k :: k in remaining ==> window.confirmCounters[k] == old(window.confirmCounters)[k]
        decreases remaining
      {
        var key :| key in remaining;
        if key == candidate {
          window.confirmCounters := window.confirmCounters[key := window.confirmCounters[key] + 1];
        } else {
          window.confirmCounters := window.confirmCounters[key := 0];
        }
        remaining := remaining - {key};
      }
    }

    /** `ResetCounters(window)`: visit every counter and clear it. */
    static method ResetCounters(window: DeviceWindow)
      modifies window`confirmCounters
      ensures window.confirmCounters == Zeroed(old(window.confirmCounters))
    {
      var keys := window.confirmCounters.Keys;
      var remaining := keys;
      while remaining != {}
        invariant remaining <= keys && window.confirmCounters.Keys == keys
        invariant forall k :: k in keys && k !in remaining ==> window.confirmCounters[k] == 0
        invariant forall k :: k in remaining ==> window.confirmCounters[k] == old(window.confirmCounters)[k]
        decreases remaining
      {
        var key :| key in remaining;
        window.confirmCounters := window.confirmCounters[key := 0];
        remaining := remaining - {key};
      }
    }
  }
}
