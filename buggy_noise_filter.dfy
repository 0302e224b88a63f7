/** The best-sample selector of one buggy's window: order the samples by confidence
    (satellites, then recency) and skip a "teleport" outlier relative to the last
    filtered position. */
module NoiseFilter {
  import opened Common

  /** About 180 km/h: a faster implied movement is treated as an outlier. */
  const MaxReasonableSpeedMetersPerSecond: real := 50.0

  /** One reading as it arrives on the wire. */
  datatype GeoMessage = GeoMessage(deviceId: string, timestamp: int, latitude: real, longitude: real, sats: real)

  /** A reading tagged with the station that relayed it. */
  datatype GeoSample = GeoSample(stationId: string, message: GeoMessage)

  /** The filtered state of a buggy as it is relayed outward. */
  datatype BuggyDto = BuggyDto(
    stationId: string,
    deviceId: string,
    latitude: real,
    longitude: real,
    sats: real,
    status: string,
    idleDurationSeconds: int,
    timestamp: int)

  /** `a` comes strictly before `b` in confidence order: more satellites, or as many and a later timestamp. */
  predicate Ahead(a: GeoSample, b: GeoSample) {
    a.message.sats > b.message.sats
    || (a.message.sats == b.message.sats && a.message.timestamp > b.message.timestamp)
  }

  /** No element is ahead of an earlier one. */
  predicate SortedByConfidence(s: seq<GeoSample>) {
    forall i, j :: 0 <= i < j < |s| ==> !Ahead(s[j], s[i])
  }

  /** Places `x` before the first element that is not ahead of it, so that `x` precedes the samples
      of equal confidence that followed it in the input. */
  function Insert(x: GeoSample, s: seq<GeoSample>): (r: seq<GeoSample>)
    ensures multiset(r) == multiset{x} + multiset(s)
    ensures |r| == |s| + 1
  {
    assert s != [] ==> s == [s[0]] + s[1..];
    if s == [] || !Ahead(s[0], x) then [x] + s else [s[0]] + Insert(x, s[1..])
  }

  /** `OrderByDescending(Sats).ThenByDescending(Timestamp)`: a stable sort by confidence. */
  function ByConfidence(s: seq<GeoSample>): (r: seq<GeoSample>)
    ensures multiset(r) == multiset(s)
    ensures |r| == |s|
  {
    assert s != [] ==> s == [s[0]] + s[1..];
    if s == [] then [] else Insert(s[0], ByConfidence(s[1..]))
  }

  lemma {:induction false} InsertKeepsSorted(x: GeoSample, s: seq<GeoSample>)
    requires SortedByConfidence(s)
    ensures SortedByConfidence(Insert(x, s))
  {
    if s != [] && Ahead(s[0], x) {
      InsertKeepsSorted(x, s[1..]);
      var t := Insert(x, s[1..]);
      forall k | 0 <= k < |t| ensures !Ahead(t[k], s[0]) {
        assert t[k] in multiset(t);
      }
    }
  }

  /** The confidence order is sorted. */
  lemma {:induction false} ByConfidenceSorted(s: seq<GeoSample>)
    ensures SortedByConfidence(ByConfidence(s))
  {
    if s != [] {
      ByConfidenceSorted(s[1..]);
      InsertKeepsSorted(s[0], ByConfidence(s[1..]));
    }
  }

  /** The samples of `s` whose satellite count and timestamp are exactly those of `k`, in order. */
  function Tied(s: seq<GeoSample>, k: GeoSample): seq<GeoSample> {
    if s == [] then []
    else if s[0].message.sats == k.message.sats && s[0].message.timestamp == k.message.timestamp
    then [s[0]] + Tied(s[1..], k)
    else Tied(s[1..], k)
  }

  predicate SameRank(a: GeoSample, b: GeoSample) {
    a.message.sats == b.message.sats && a.message.timestamp == b.message.timestamp
  }

  lemma {:induction false} InsertTied(x: GeoSample, s: seq<GeoSample>, k: GeoSample)
    ensures Tied(Insert(x, s), k) == if SameRank(x, k) then [x] + Tied(s, k) else Tied(s, k)
  {
    if s == [] || !Ahead(s[0], x) {
      assert Insert(x, s) == [x] + s;
      assert ([x] + s)[1..] == s;
    } else {
      InsertTied(x, s[1..], k);
      assert Insert(x, s)[1..] == Insert(x, s[1..]);
      if SameRank(x, k) {
        assert !SameRank(s[0], k);
      }
    }
  }

  /** The sort is stable: samples of equal confidence keep their order of arrival. */
  lemma {:induction false} ByConfidenceStable(s: seq<GeoSample>, k: GeoSample)
    ensures Tied(ByConfidence(s), k) == Tied(s, k)
  {
    if s != [] {
      ByConfidenceStable(s[1..], k);
      InsertTied(s[0], ByConfidence(s[1..]), k);
    }
  }

  /** The sample with the most satellites, the latest among those, heads the order. */
  lemma TopIsMostConfident(window: seq<GeoSample>)
    requires window != []
    ensures |ByConfidence(window)| == |window|
    ensures ByConfidence(window)[0] in window
    ensures forall y :: y in window ==> !Ahead(y, ByConfidence(window)[0])
  {
    ByConfidenceSorted(window);
    var o := ByConfidence(window);
    assert o[0] in multiset(o);
    forall y | y in window ensures !Ahead(y, o[0]) {
      assert y in multiset(o);
      var j :| 0 <= j < |o| && o[j] == y;
    }
  }

  /** Seconds from the last filtered position to the sample. */
  function ElapsedSince(last: BuggyDto, s: GeoSample): real {
    ElapsedSeconds(last.timestamp, s.message.timestamp)
  }

  /** The speed implied by moving from `last` to `s`; only meaningful when time has elapsed. */
  function ImpliedSpeed(last: BuggyDto, s: GeoSample, dist: Haversine): real
    requires ElapsedSince(last, s) > 0.0
  {
    dist(last.latitude, last.longitude, s.message.latitude, s.message.longitude) / ElapsedSince(last, s)
  }

  /** The test applied to the top candidate: time has elapsed and the implied speed is too high. */
  predicate IsOutlier(last: BuggyDto, s: GeoSample, dist: Haversine) {
    ElapsedSince(last, s) > 0.0 && ImpliedSpeed(last, s, dist) > MaxReasonableSpeedMetersPerSecond
  }

  /** The test applied to the fallback candidates: time has elapsed and the implied speed is acceptable.
      A candidate with no elapsed time fails it, although it is not an outlier either. */
  predicate IsPlausible(last: BuggyDto, s: GeoSample, dist: Haversine) {
    ElapsedSince(last, s) > 0.0 && ImpliedSpeed(last, s, dist) <= MaxReasonableSpeedMetersPerSecond
  }

  /** `FirstOrDefault(IsPlausible)`: the index of the first plausible candidate, or `|s|` if none is. */
  function FirstPlausible(s: seq<GeoSample>, last: BuggyDto, dist: Haversine): (i: nat)
    ensures i <= |s|
    ensures i < |s| ==> IsPlausible(last, s[i], dist)
    ensures forall j :: 0 <= j < i ==> !IsPlausible(last, s[j], dist)
  {
    if s == [] then 0
    else if IsPlausible(last, s[0], dist) then 0
    else 1 + FirstPlausible(s[1..], last, dist)
  }

  /** `SelectBestSample(window, lastFiltered)`: nothing for an empty window; otherwise the top candidate,
      unless it is an outlier and a later candidate is plausible, in which case the first such one. */
  function SelectBestSample(window: seq<GeoSample>, lastFiltered: Option<BuggyDto>, dist: Haversine)
    : (r: Option<GeoSample>)
    ensures r.None? <==> window == []
    ensures r.Some? ==> r.value in window
  {
    if window == [] then None
    else
      var ordered := ByConfidence(window);
      var best := ordered[0];
      assert best in multiset(ordered);
      match lastFiltered
      case None => Some(best)
      case Some(last) =>
        if IsOutlier(last, best, dist) then
          var i := FirstPlausible(ordered[1..], last, dist);
          if i < |ordered| - 1 then
            assert ordered[1 + i] in multiset(ordered);
            Some(ordered[1 + i])
          else Some(best)
        else Some(best)
  }

  /** Without a previous filtered state the top candidate is returned unchecked. */
  lemma SelectWithoutHistory(window: seq<GeoSample>, dist: Haversine)
    requires window != []
    ensures SelectBestSample(window, None, dist) == Some(ByConfidence(window)[0])
    ensures forall y :: y in window ==> !Ahead(y, SelectBestSample(window, None, dist).value)
  {
    TopIsMostConfident(window);
  }

  /** The top candidate is kept when no time has elapsed since `last` or its speed is acceptable. */
  lemma TopKeptUnlessOutlier(window: seq<GeoSample>, last: BuggyDto, dist: Haversine)
    requires window != []
    requires !IsOutlier(last, ByConfidence(window)[0], dist)
    ensures SelectBestSample(window, Some(last), dist) == Some(ByConfidence(window)[0])
  {
  }

  /** An outlier at the top is replaced by the first later candidate that is plausible; candidates with
      no elapsed time are skipped; when none is plausible the outlier is returned after all. */
  lemma {:induction false} OutlierTopFallsBack(window: seq<GeoSample>, last: BuggyDto, dist: Haversine)
    requires window != []
    requires IsOutlier(last, ByConfidence(window)[0], dist)
    ensures var o := ByConfidence(window);
            var r := SelectBestSample(window, Some(last), dist).value;
            (exists k :: 1 <= k < |o| && IsPlausible(last, o[k], dist)
               && (forall j :: 1 <= j < k ==> !IsPlausible(last, o[j], dist)) && r == o[k])
            || ((forall j :: 1 <= j < |o| ==> !IsPlausible(last, o[j], dist)) && r == o[0])
  {
    var o := ByConfidence(window);
    var i := FirstPlausible(o[1..], last, dist);
    if i < |o| - 1 {
      var k := 1 + i;
      assert o[k] == o[1..][i];
      forall j | 1 <= j < k ensures !IsPlausible(last, o[j], dist) {
        assert o[j] == o[1..][j - 1];
      }
    } else {
      forall j | 1 <= j < |o| ensures !IsPlausible(last, o[j], dist) {
        assert o[j] == o[1..][j - 1];
      }
    }
  }

  /** An outlier is chosen only as a last resort: it is the top candidate and no other candidate is plausible. */
  lemma OutlierOnlyAsLastResort(window: seq<GeoSample>, last: BuggyDto, dist: Haversine)
    requires window != []
    requires IsOutlier(last, SelectBestSample(window, Some(last), dist).value, dist)
    ensures SelectBestSample(window, Some(last), dist).value == ByConfidence(window)[0]
    ensures forall j :: 1 <= j < |ByConfidence(window)| ==> !IsPlausible(last, ByConfidence(window)[j], dist)
  {
    var o := ByConfidence(window);
    var i := FirstPlausible(o[1..], last, dist);
    if !IsOutlier(last, o[0], dist) || i < |o| - 1 {
      assert false;
    }
    forall j | 1 <= j < |o| ensures !IsPlausible(last, o[j], dist) {
      assert o[j] == o[1..][j - 1];
    }
  }

  /** `MapToBuggyDto(sample, previous)`: the sample's identity, position, satellites and time, with the
      previous status carried over (or empty). */
  function MapToBuggyDto(sample: GeoSample, previous: Option<BuggyDto>): (dto: BuggyDto)
    ensures dto.stationId == sample.stationId && dto.deviceId == sample.message.deviceId
    ensures dto.latitude == sample.message.latitude && dto.longitude == sample.message.longitude
    ensures dto.sats == sample.message.sats && dto.timestamp == sample.message.timestamp
    ensures dto.status == (if previous.Some? then previous.value.status else "")
    ensures dto.idleDurationSeconds == 0
  {
    var msg := sample.message;
    BuggyDto(
      stationId := sample.stationId,
      deviceId := msg.deviceId,
      latitude := msg.latitude,
      longitude := msg.longitude,
      sats := msg.sats,
      status := match previous case Some(p) => p.status case None => "",
      idleDurationSeconds := 0,
      timestamp := msg.timestamp)
  }
}
