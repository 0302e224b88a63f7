/** The per-device classifier state (position history, committed status, confirm
    counters) and the store that hands out one such window per device id. */
module DeviceWindows {
  import opened Common

  datatype DeviceStatus = Unknown | Stationary | Moving | Idle

  /** One accepted position: coordinates in degrees and a timestamp in ticks. */
  datatype Position = Position(lat: real, lng: real, timestamp: int)

  /** The statuses that carry a confirm counter; `Unknown` never does. */
  const CountedStatuses: set<DeviceStatus> := {Stationary, Moving, Idle}

  /** The counters of a new window: every counted status at zero. */
  function InitialCounters(): (c: map<DeviceStatus, int>)
    ensures c.Keys == CountedStatuses && Unknown !in c
    ensures forall s :: s in c ==> c[s] == 0
  {
    map[Stationary := 0, Moving := 0, Idle := 0]
  }

  /** The confirm counters are keyed by exactly the counted statuses, are never negative, and at most
      one of them is non-zero (spelled out status by status; `CountersOkMeans` restates it with
      quantifiers). */
  ghost predicate CountersOk(c: map<DeviceStatus, int>) {
    && Unknown !in c && Stationary in c && Moving in c && Idle in c
    && c[Stationary] >= 0 && c[Moving] >= 0 && c[Idle] >= 0
    && (c[Stationary] == 0 || c[Moving] == 0)
    && (c[Stationary] == 0 || c[Idle] == 0)
    && (c[Moving] == 0 || c[Idle] == 0)
  }

  lemma CountersOkMeans(c: map<DeviceStatus, int>)
    ensures CountersOk(c) <==>
      && c.Keys == CountedStatuses
      && (forall s :: s in c ==> c[s] >= 0)
      && (forall s, t :: s in c && t in c && s != t ==> c[s] == 0 || c[t] == 0)
  {
    if CountersOk(c) {
      assert c.Keys == CountedStatuses by {
        forall s ensures s in c <==> s in CountedStatuses {
          if s.Unknown? { assert s == Unknown; }
        }
      }
    }
    if c.Keys == CountedStatuses {
      assert Stationary in c && Moving in c && Idle in c && Unknown !in c;
    }
  }

  /** The value held by a `DeviceWindow`. */
  datatype WindowState = WindowState(positions: seq<Position>, status: DeviceStatus, counters: map<DeviceStatus, int>)

  /** The state of a window that has seen nothing yet. */
  function InitialState(): (w: WindowState)
    ensures w.positions == [] && w.status == Unknown && w.counters.Keys == CountedStatuses
  {
    WindowState([], Unknown, InitialCounters())
  }

  class DeviceWindow {
    /** The position history, oldest first (a `LinkedList` in place). */
    var positions: seq<Position>
    var currentStatus: DeviceStatus
    var confirmCounters: map<DeviceStatus, int>

    ghost predicate Valid()
      reads this
    {
      CountersOk(confirmCounters)
    }

    function State(): WindowState
      reads this
    {
      WindowState(positions, currentStatus, confirmCounters)
    }

    /** A new window: no positions, status `Unknown`, and a zero counter for each counted status. */
    constructor ()
      ensures Valid() && State() == InitialState()
    {
      positions := [];
      currentStatus := Unknown;
      confirmCounters := InitialCounters();
    }
  }

  class InMemoryDeviceWindowStore {
    /** Windows by folded device id. */
    var windows: map<string, DeviceWindow>

    /** Every device has a window of its own, and every window keeps its counters well formed. */
    ghost predicate Valid()
      reads this, windows.Values
    {
      && (forall k1, k2 :: k1 in windows && k2 in windows && k1 != k2 ==> windows[k1] != windows[k2])
      && (forall k :: k in windows ==> windows[k].Valid())
    }

    constructor ()
      ensures Valid() && windows == map[]
    {
      windows := map[];
    }

    /** `Get(deviceId)`: the device's window, created on first lookup (ignoring case) and the same
        object on every later one; an existing window is never replaced or reset. */
    method Get(deviceId: string) returns (w: DeviceWindow)
      requires Valid()
      modifies this
      ensures Valid()
      ensures Fold(deviceId) in windows && windows[Fold(deviceId)] == w
      ensures Fold(deviceId) in old(windows) ==> windows == old(windows)
      ensures Fold(deviceId) !in old(windows) ==>
                fresh(w) && w.State() == InitialState() && windows == old(windows)[Fold(deviceId) := w]
    {
      var key := Fold(deviceId);
      if key in windows {
        w := windows[key];
      } else {
        w := new DeviceWindow();
        windows := windows[key := w];
      }
    }
  }
}
