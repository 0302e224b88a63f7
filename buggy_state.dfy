/** The per-buggy sample window: a list of recent samples, trimmed against the
    wall clock, and the filtered position re-selected after every sample. */
module BuggyStates {
  import opened Common
  import opened NoiseFilter

  /** The message as it is stored: a blank device id is replaced by the station id. */
  function WithDeviceFallback(message: GeoMessage, stationId: string): (m: GeoMessage)
    ensures IsBlank(message.deviceId) ==> m == message.(deviceId := stationId)
    ensures !IsBlank(message.deviceId) ==> m == message
  {
    if IsBlank(message.deviceId) then message.(deviceId := stationId) else message
  }

  /** `RemoveAll(s => s.Message.Timestamp < threshold)`: every sample older than `threshold` goes,
      wherever it stands in the list. */
  function RemoveStale(s: seq<GeoSample>, threshold: int): (r: seq<GeoSample>)
    ensures |r| <= |s|
  {
    if s == [] then []
    else if s[0].message.timestamp < threshold then RemoveStale(s[1..], threshold)
    else [s[0]] + RemoveStale(s[1..], threshold)
  }

  /** Only samples of the list that are not older than the threshold remain. */
  lemma {:induction false} RemoveStaleDropsStale(s: seq<GeoSample>, threshold: int)
    ensures forall x :: x in RemoveStale(s, threshold) ==> x in s && x.message.timestamp >= threshold
  {
    if s != [] {
      RemoveStaleDropsStale(s[1..], threshold);
    }
  }

  /** Trimming works sample by sample, so it distributes over concatenation: retained samples keep
      their relative order. */
  lemma {:induction false} RemoveStaleAppend(a: seq<GeoSample>, b: seq<GeoSample>, threshold: int)
    ensures RemoveStale(a + b, threshold) == RemoveStale(a, threshold) + RemoveStale(b, threshold)
  {
    if a != [] {
      RemoveStaleAppend(a[1..], b, threshold);
      assert (a + b)[1..] == a[1..] + b;
      assert (a + b)[0] == a[0];
    } else {
      assert a + b == b;
    }
  }

  /** No sample at or after the threshold is removed. */
  lemma {:induction false} RemoveStaleKeepsFresh(s: seq<GeoSample>, threshold: int, i: int)
    requires 0 <= i < |s| && s[i].message.timestamp >= threshold
    ensures s[i] in RemoveStale(s, threshold)
  {
    if i > 0 {
      RemoveStaleKeepsFresh(s[1..], threshold, i - 1);
    }
  }

  /** The sample just added stays last when it is not itself stale, and vanishes otherwise. */
  lemma NewSampleLastIfFresh(s: seq<GeoSample>, x: GeoSample, threshold: int)
    ensures x.message.timestamp >= threshold ==>
      RemoveStale(s + [x], threshold) == RemoveStale(s, threshold) + [x]
    ensures x.message.timestamp < threshold ==>
      RemoveStale(s + [x], threshold) == RemoveStale(s, threshold)
  {
    RemoveStaleAppend(s, [x], threshold);
  }

  /** The samples and the filtered position after one sample is added at wall-clock time `now`: the
      sample is stored, every sample older than `now - windowSize` goes, and, if any remain, the best
      remaining sample becomes the filtered position with the previous status kept. */
  function AfterSample(samples: seq<GeoSample>, filtered: Option<BuggyDto>, stationId: string, message: GeoMessage,
                       windowSize: int, now: int, dist: Haversine): (seq<GeoSample>, Option<BuggyDto>)
  {
    var kept := RemoveStale(samples + [GeoSample(stationId, WithDeviceFallback(message, stationId))], now - windowSize);
    (kept, Refiltered(kept, filtered, dist))
  }

  /** The filtered position after re-selection over `kept`: unchanged when nothing remains. */
  function Refiltered(kept: seq<GeoSample>, filtered: Option<BuggyDto>, dist: Haversine): Option<BuggyDto> {
    var best := SelectBestSample(kept, filtered, dist);
    if best.None? then filtered else Some(MapToBuggyDto(best.value, filtered))
  }

  /** After a sample, nothing older than the window remains, and a sample that is itself within the
      window is kept as the newest. */
  lemma AfterSampleWindow(samples: seq<GeoSample>, filtered: Option<BuggyDto>, stationId: string,
                          message: GeoMessage, windowSize: int, now: int, dist: Haversine)
    ensures var kept := AfterSample(samples, filtered, stationId, message, windowSize, now, dist).0;
            var added := GeoSample(stationId, WithDeviceFallback(message, stationId));
            && (forall x :: x in kept ==> x.message.timestamp >= now - windowSize && x in samples + [added])
            && (message.timestamp >= now - windowSize ==> kept != [] && kept[|kept| - 1] == added)
  {
    var added := GeoSample(stationId, WithDeviceFallback(message, stationId));
    RemoveStaleDropsStale(samples + [added], now - windowSize);
    NewSampleLastIfFresh(samples, added, now - windowSize);
  }

  /** The filtered position changes only when some sample remains, and then it is the projection of one
      of the remaining samples carrying the previous status; once present it never disappears. */
  lemma AfterSampleFiltered(samples: seq<GeoSample>, filtered: Option<BuggyDto>, stationId: string,
                            message: GeoMessage, windowSize: int, now: int, dist: Haversine)
    ensures var (kept, f) := AfterSample(samples, filtered, stationId, message, windowSize, now, dist);
            && (kept == [] ==> f == filtered)
            && (kept != [] ==> exists x :: x in kept && f == Some(MapToBuggyDto(x, filtered)))
            && (filtered.Some? ==> f.Some?)
  {
    var kept := AfterSample(samples, filtered, stationId, message, windowSize, now, dist).0;
    if kept != [] {
      var best := SelectBestSample(kept, filtered, dist);
      assert Refiltered(kept, filtered, dist) == Some(MapToBuggyDto(best.value, filtered));
    }
  }

  class BuggyState {
    /** The samples received within the window, in order of arrival. */
    var samples: seq<GeoSample>
    /** The current filtered position, absent until the first sample. */
    var filtered: Option<BuggyDto>

    constructor ()
      ensures samples == [] && filtered == None
    {
      samples := [];
      filtered := None;
    }

    /** `AddSample(stationId, message, windowSize)` at wall-clock time `now`: store the sample, drop
        every sample older than `now - windowSize`, and, if any remain, replace the filtered position
        by the best remaining sample, keeping the previous status. */
    method AddSample(stationId: string, message: GeoMessage, windowSize: int, now: int, dist: Haversine)
      modifies this
      ensures (samples, filtered) == AfterSample(old(samples), old(filtered), stationId, message, windowSize, now, dist)
    {
      var msg := message;
      if IsBlank(msg.deviceId) {
        msg := msg.(deviceId := stationId);
      }
      samples := samples + [GeoSample(stationId, msg)];

      var threshold := now - windowSize;
      samples := RemoveStale(samples, threshold);
      assert samples == AfterSample(old(samples), old(filtered), stationId, message, windowSize, now, dist).0;

      var best := SelectBestSample(samples, filtered, dist);
      if best.None? {
        return;
      }
      filtered := Some(MapToBuggyDto(best.value, filtered));
    }

    /** `Clear()`: no samples and no filtered position. */
    method Clear()
      modifies this
      ensures samples == [] && filtered == None
    {
      samples := [];
      filtered := None;
    }
  }
}
