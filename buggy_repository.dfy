/** The aggregation repository: one `BuggyState` per device, keyed by device id
    without regard to case, and the snapshot of filtered positions the relay sends. */
module Repository {
  import opened Common
  import opened NoiseFilter
  import opened BuggyStates

  /** Every sample is filtered over a fixed 10 s window. */
  const WindowSize: int := 10 * TicksPerSecond

  /** The station a sample is attributed to: a blank station id falls back to the device id. */
  function EffectiveStation(stationId: string, message: GeoMessage): (st: string)
    ensures !IsBlank(stationId) ==> st == stationId
    ensures IsBlank(stationId) ==> st == message.deviceId
  {
    if IsBlank(stationId) then message.deviceId else stationId
  }

  /** The device id a sample is filed under: the message's own unless blank, else the effective station. */
  function DeviceKey(stationId: string, message: GeoMessage): (key: string)
    ensures !IsBlank(message.deviceId) ==> key == message.deviceId
    ensures IsBlank(message.deviceId) ==> key == EffectiveStation(stationId, message)
  {
    if IsBlank(message.deviceId) then EffectiveStation(stationId, message) else message.deviceId
  }

  /** Device ids differing only in case are filed under the same key. */
  lemma SameKeyIgnoringCase(stationId: string, m1: GeoMessage, m2: GeoMessage)
    requires !IsBlank(m1.deviceId) && !IsBlank(m2.deviceId) && EqualsIgnoreCase(m1.deviceId, m2.deviceId)
    ensures Fold(DeviceKey(stationId, m1)) == Fold(DeviceKey(stationId, m2))
  {
  }

  /** No two entries of `keys` are equal. */
  ghost predicate Distinct(keys: seq<string>) {
    forall i, j :: 0 <= i < j < |keys| ==> keys[i] != keys[j]
  }

  /** A sequence of distinct keys drawn from `s` is no longer than `s` is large. */
  lemma {:induction false} DistinctWithin(keys: seq<string>, s: set<string>)
    requires Distinct(keys)
    requires forall i :: 0 <= i < |keys| ==> keys[i] in s
    ensures |keys| <= |s|
  {
    if keys != [] {
      var last := keys[|keys| - 1];
      var init := keys[..|keys| - 1];
      assert forall i :: 0 <= i < |init| ==> init[i] in s - {last} by {
        forall i | 0 <= i < |init| ensures init[i] in s - {last} {
          assert init[i] == keys[i];
        }
      }
      DistinctWithin(init, s - {last});
    }
  }

  class BuggyRepository {
    /** Device states by folded device id. */
    var buggies: map<string, BuggyState>

    /** Every device has a state of its own. */
    ghost predicate Valid()
      reads this
    {
      forall k1, k2 :: k1 in buggies && k2 in buggies && k1 != k2 ==> buggies[k1] != buggies[k2]
    }

    constructor ()
      ensures Valid() && buggies == map[]
    {
      buggies := map[];
    }

    /** `Update(stationId, message)` at wall-clock time `now`: find or create the device's state and
        add the sample to it over the 10 s window; no other device's state changes. */
    method Update(stationId: string, message: GeoMessage, now: int, dist: Haversine)
      requires Valid()
      modifies this, buggies.Values
      ensures Valid()
      ensures var key := Fold(DeviceKey(stationId, message));
              key in buggies
              && (key in old(buggies) ==> buggies == old(buggies))
              && (key !in old(buggies) ==> fresh(buggies[key]) && buggies == old(buggies)[key := buggies[key]])
      ensures var key := Fold(DeviceKey(stationId, message));
              var before := if key in old(buggies) then old(buggies[key].samples) else [];
              var last := if key in old(buggies) then old(buggies[key].filtered) else None;
              (buggies[key].samples, buggies[key].filtered)
              == AfterSample(before, last, EffectiveStation(stationId, message), message, WindowSize, now, dist)
      ensures forall k :: k in old(buggies) && k != Fold(DeviceKey(stationId, message)) ==>
                buggies[k].samples == old(buggies[k].samples) && buggies[k].filtered == old(buggies[k].filtered)
    {
      var station := stationId;
      if IsBlank(station) {
        station := message.deviceId;
      }
      var deviceId := if IsBlank(message.deviceId) then station else message.deviceId;
      var key := Fold(deviceId);
      ghost var others := old(buggies) - {key};
      var state := StateFor(key);
      assert forall k :: k in others ==> k in buggies && buggies[k] == old(buggies)[k] && buggies[k] != state;
      state.AddSample(station, message, WindowSize, now, dist);
    }

    /** The lookup step of `Update`: the state filed under `key`, created and added when there is none. */
    method StateFor(key: string) returns (state: BuggyState)
      requires Valid()
      modifies this
      ensures Valid() && key in buggies && buggies[key] == state
      ensures key in old(buggies) ==> buggies == old(buggies)
      ensures key !in old(buggies) ==>
                fresh(state) && state.samples == [] && state.filtered == None && buggies == old(buggies)[key := state]
    {
      if key in buggies {
        state := buggies[key];
      } else {
        state := new BuggyState();
        buggies := buggies[key := state];
      }
    }

    /** `Snapshot()`: the filtered position of every state that has one, each exactly once, in a list of
        its own (enumeration order is that of the dictionary and is left open). */
    method Snapshot() returns (r: seq<BuggyDto>, ghost keys: seq<string>)
      ensures |keys| == |r| && Distinct(keys)
      ensures forall i :: 0 <= i < |r| ==> keys[i] in buggies && buggies[keys[i]].filtered == Some(r[i])
      ensures forall k :: k in buggies && buggies[k].filtered.Some? ==> k in keys
      ensures |r| <= |buggies|
    {
      var remaining := buggies.Keys;
      r, keys := [], [];
      while remaining != {}
        invariant remaining <= buggies.Keys
        invariant |keys| == |r| && Distinct(keys)
        invariant forall i :: 0 <= i < |r| ==>
          keys[i] in buggies && keys[i] !in remaining && buggies[keys[i]].filtered == Some(r[i])
        invariant forall k :: k in buggies && k !in remaining && buggies[k].filtered.Some? ==> k in keys
        decreases remaining
      {
        var k :| k in remaining;
        var f := buggies[k].filtered;
        if f.Some? {
          r, keys := r + [f.value], keys + [k];
        }
        remaining := remaining - {k};
      }
      DistinctWithin(keys, buggies.Keys);
    }

    /** `Clear()`: every device state is dropped. */
    method Clear()
      modifies this
      ensures Valid() && buggies == map[]
    {
      buggies := map[];
    }
  }

  /** After `Clear`, a snapshot is empty. */
  method ClearThenSnapshot(repo: BuggyRepository) returns (r: seq<BuggyDto>)
    modifies repo
    ensures r == []
  {
    repo.Clear();
    ghost var keys;
    r, keys := repo.Snapshot();
  }
}
