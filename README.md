# GeoTrack core in Dafny

GeoTrack receives GPS readings from golf-buggy trackers, which are relayed by one or more base
stations. It filters noise from the readings and classifies each device as stationary, moving or
idle. It then forwards the filtered positions to an external application, which needs an access
token and a retrying HTTP client. This project models the core of GeoTrack and proves properties of
that model:

- **Reconnect policy** (`Reconnect`, `reconnect_settings.dfy`): delay validation and exponential
  backoff.
- **Noise filter** (`NoiseFilter`, `buggy_noise_filter.dfy`): the samples of a window are ordered by
  confidence (satellites, then recency). The top sample is rejected as a "teleport" when its implied
  speed from the last filtered position is over 50 m/s.
- **Per-buggy window** (`BuggyStates`, `buggy_state.dfy`): a `BuggyState` object keeps its samples as
  a `seq`. Samples are trimmed against the wall clock, and the filtered position is chosen again after
  every sample.
- **Repository** (`Repository`, `buggy_repository.dfy`): one `BuggyState` per device. The device id
  is matched without regard to case. The repository also takes the snapshot of filtered positions.
- **Device windows** (`DeviceWindows`, `device_window_store.dfy`): the `DeviceWindow` object of the
  motion classifier and the store that hands out one window per device.
- **Motion classifier** (`GeoTracking`, `geo_track_service.dfy`):
  - outlier rejection, then append and trim;
  - the two `ComputeMetrics` loops and the `Decide` rule;
  - hysteresis: a status is committed only after `ConfirmCount` consecutive candidates.

  `OnPosition` is an imperative method on the window objects. It is proved equal to one step of the
  pure transition `Observe`, and the classifier's properties are proved about `Observe`.
- **Token manager** (`TokenManagement`, `external_app_token_manager.dfy`): login, refresh with
  fallback to login, or reuse of the stored token. The HTTP exchanges are inputs to the model, and
  `now` is a parameter.
- **HTTP retry** (`HttpRetry`, `http_client_factory.dfy`): up to `RetryCount + 1` attempts. A server
  error, a time-out or a transport failure is retried, and the caller's cancellation stops the loop.
  `SendAsync` is modelled as a function giving the outcome of each numbered attempt.
- **Result envelope** (`ResultEnvelope`, `common_result_dto.dfy`): the factories of
  `CommonResultDto<T>` and `CloneError`.
- **Simulator command line** (`CommandLine`, `command_line_options.dfy`): `--port` and `--deviceId`,
  including the integer parsing of `int.TryParse`.
- **Shared pieces** (`Common`, `common.dfy`):
  - `Option` and `Result`;
  - the distance function parameter `Haversine`;
  - timestamps as ticks (100 ns);
  - ASCII case folding, which stands for `OrdinalIgnoreCase`;
  - decimal formatting of integers.

Conventions:

- `DateTime`/`DateTimeOffset` values are whole ticks.
- `TimeSpan` values are ticks, except in the reconnect policy, where they are milliseconds.
- Distances and speeds are `real`.
- Every dictionary with `OrdinalIgnoreCase` keys is a `map` keyed by the folded key.

Three behaviours of the code are easy to misread; the model follows the code:

- The buggy window (`BuggyState.AddSample`) is trimmed against the wall clock, `now - windowSize`, as
  `GeoTrack/BuggyState.cs:24-36` does. It is not trimmed against the newest sample's timestamp.
- The motion classifier's trim is relative to the position just appended
  (`GeoTrack/Domain/GeoTrackService.cs:94`), which need not be the newest one. The window bound
  "nothing older than newest − window" therefore holds only for positions that arrive in time order
  (`WindowBoundInOrder`). `OutOfOrderKeepsStalePosition` shows a window that breaks the bound.
- An outlier at the top of the noise filter's order is still returned when no later candidate is
  plausible. A candidate with no elapsed time counts as not plausible, even though it is not an
  outlier either. `OutlierOnlyAsLastResort` states this behaviour of the code.

## Model

| member | source | states |
|---|---|---|
| Reconnect.ReconnectSettings.Replacement | GeoTrack/ReconnectSettings.cs:10-13 | a non-positive delay is replaced by `InitialDelay` when that is positive, else by 10 s; the replacement is positive |
| Reconnect.ReconnectSettings.EnsureValidDelay | GeoTrack/ReconnectSettings.cs:7-21 | the result is positive and within `MaxDelay` when a cap is set; a missing delay starts from `InitialDelay`; the candidate is returned when it is valid, else the cap |
| Reconnect.ReconnectSettings.NextDelay | GeoTrack/ReconnectSettings.cs:23-32 | without backoff the previous delay is only validated; with backoff it is doubled, or restarted from `InitialDelay` when not positive, and then validated; the result is always valid |
| Reconnect.MissingDelayStartsFromInitial | GeoTrack/ReconnectSettings.cs:9 | a missing delay is the same as asking for `InitialDelay` |
| Reconnect.EnsureValidDelayIdempotent | GeoTrack/ReconnectSettings.cs:7-21 | validating a validated delay changes nothing |
| Reconnect.NextDelayNeverDecreases | GeoTrack/ReconnectSettings.cs:25-31 | with backoff the next delay is never below a valid previous one |
| Reconnect.MaxDelayIsFixedPoint | GeoTrack/ReconnectSettings.cs:15-18 | with backoff and a cap, the cap maps to itself |
| Reconnect.BackoffDoublesUpToCap | GeoTrack/ReconnectSettings.cs:23-32 | `k` backoff steps from a valid delay `d` give `min(MaxDelay, d·2^k)` |
| NoiseFilter.Insert | GeoTrack/BuggyNoiseFilter.cs:27-30 | inserting into the confidence order adds exactly one element (multiset equality) |
| NoiseFilter.ByConfidence | GeoTrack/BuggyNoiseFilter.cs:27-30 | the confidence order is a permutation of the window |
| NoiseFilter.ByConfidenceSorted | GeoTrack/BuggyNoiseFilter.cs:27-30 | the order is sorted: more satellites first, then later timestamps |
| NoiseFilter.InsertKeepsSorted | GeoTrack/BuggyNoiseFilter.cs:27-30 | insertion preserves sortedness |
| NoiseFilter.InsertTied | GeoTrack/BuggyNoiseFilter.cs:27-30 | insertion keeps the order of samples with equal satellites and timestamp |
| NoiseFilter.ByConfidenceStable | GeoTrack/BuggyNoiseFilter.cs:27-30 | the sort is stable, as LINQ's `OrderByDescending().ThenByDescending()` is |
| NoiseFilter.TopIsMostConfident | GeoTrack/BuggyNoiseFilter.cs:27-32 | the head of the order belongs to the window and no sample of the window is ahead of it |
| NoiseFilter.FirstPlausible | GeoTrack/BuggyNoiseFilter.cs:53-71 | the index of the first candidate with elapsed time and speed ≤ 50 m/s, with none plausible before it |
| NoiseFilter.SelectBestSample | GeoTrack/BuggyNoiseFilter.cs:17-81 | nothing exactly when the window is empty; otherwise a sample of the window |
| NoiseFilter.SelectWithoutHistory | GeoTrack/BuggyNoiseFilter.cs:32-37 | without a previous filtered position the most confident sample is returned |
| NoiseFilter.TopKeptUnlessOutlier | GeoTrack/BuggyNoiseFilter.cs:40-51 | a top sample with no elapsed time or an acceptable speed is kept |
| NoiseFilter.OutlierTopFallsBack | GeoTrack/BuggyNoiseFilter.cs:51-77 | an outlier at the top is replaced by the first later plausible candidate, or kept when there is none |
| NoiseFilter.OutlierOnlyAsLastResort | GeoTrack/BuggyNoiseFilter.cs:51-80 | an outlier is returned only when it is the top sample and no other candidate is plausible |
| NoiseFilter.MapToBuggyDto | GeoTrack/BuggyNoiseFilter.cs:86-103 | the DTO takes the sample's identity, position, satellites and time, and the previous status or "" |
| BuggyStates.WithDeviceFallback | GeoTrack/BuggyState.cs:26-30 | a blank device id is replaced by the station id; otherwise the message is unchanged |
| BuggyStates.RemoveStale | GeoTrack/BuggyState.cs:35-36 | removing never lengthens the list |
| BuggyStates.RemoveStaleDropsStale | GeoTrack/BuggyState.cs:35-36 | every remaining sample came from the list and is not older than the threshold |
| BuggyStates.RemoveStaleKeepsFresh | GeoTrack/BuggyState.cs:35-36 | no sample at or after the threshold is removed |
| BuggyStates.RemoveStaleAppend | GeoTrack/BuggyState.cs:35-36 | removal distributes over concatenation, so retained samples keep their order |
| BuggyStates.NewSampleLastIfFresh | GeoTrack/BuggyState.cs:32-36 | the added sample stays last when it is within the window, and vanishes otherwise |
| BuggyStates.AfterSampleWindow | GeoTrack/BuggyState.cs:20-36 | after a sample, nothing older than `now - windowSize` remains, everything kept was stored, and a fresh sample is the newest kept |
| BuggyStates.AfterSampleFiltered | GeoTrack/BuggyState.cs:38-44 | the filtered position is unchanged when nothing remains; otherwise it is a kept sample projected with the previous status; it never disappears |
| BuggyStates.BuggyState.constructor | GeoTrack/BuggyState.cs:10-15 | no samples and no filtered position |
| BuggyStates.BuggyState.AddSample | GeoTrack/BuggyState.cs:20-46 | the new samples and filtered position are `AfterSample` of the old ones |
| BuggyStates.BuggyState.Clear | GeoTrack/BuggyState.cs:48-55 | no samples and no filtered position |
| Repository.EffectiveStation | GeoTrack/BuggyRepository.cs:19-22 | a blank station id falls back to the message's device id |
| Repository.DeviceKey | GeoTrack/BuggyRepository.cs:24-26 | the message's device id unless blank, else the effective station |
| Repository.SameKeyIgnoringCase | GeoTrack/BuggyRepository.cs:11-12 | device ids that differ only in case reach the same state |
| Repository.DistinctWithin | GeoTrack/BuggyRepository.cs:32-39 | distinct keys drawn from a set are no more than the set's size |
| Repository.BuggyRepository.constructor | GeoTrack/BuggyRepository.cs:11-12 | an empty repository |
| Repository.BuggyRepository.Update | GeoTrack/BuggyRepository.cs:17-30 | the device's state is found or created (and only then added), it takes the `AfterSample` step with the effective station, and no other device's state changes |
| Repository.BuggyRepository.StateFor | GeoTrack/BuggyRepository.cs:28 | `GetOrAdd`: an existing state is returned as it is, otherwise a fresh empty one is added under the key |
| Repository.BuggyRepository.Snapshot | GeoTrack/BuggyRepository.cs:32-39 | each device's filtered position appears once; states without one are skipped |
| Repository.BuggyRepository.Clear | GeoTrack/BuggyRepository.cs:41-44 | every state is dropped |
| Repository.ClearThenSnapshot | GeoTrack/BuggyRepository.cs:32-44 | a snapshot after `Clear` is empty |
| DeviceWindows.InitialCounters | GeoTrack/Domain/DeviceWindowStore.cs:20-25 | one zero counter for each of Stationary, Moving and Idle, and none for Unknown |
| DeviceWindows.CountersOkMeans | GeoTrack/Domain/DeviceWindowStore.cs:20-25 | the counter invariant means: the keys are the three counted statuses, no counter is negative, and at most one is non-zero |
| DeviceWindows.InitialState | GeoTrack/Domain/DeviceWindowStore.cs:14-26 | a new window has no positions, status Unknown and the three counters |
| DeviceWindows.DeviceWindow.constructor | GeoTrack/Domain/DeviceWindowStore.cs:14-26 | the window starts in the initial state with valid counters |
| DeviceWindows.InMemoryDeviceWindowStore.constructor | GeoTrack/Domain/DeviceWindowStore.cs:35 | the store starts empty and Valid() |
| DeviceWindows.InMemoryDeviceWindowStore.Get | GeoTrack/Domain/DeviceWindowStore.cs:35-40 | the window under the folded id, created on the first lookup; an existing window is never replaced |
| GeoTracking.WindowTicks | GeoTrack/Domain/GeoTrackService.cs:94 | a non-negative `WindowSeconds` gives a non-negative span in ticks |
| GeoTracking.LeadingStaleStops | GeoTrack/Domain/GeoTrackService.cs:95-98 | the front trim stops at the first position not older than the threshold, and every position before it is older |
| GeoTracking.TrimmedKeepsNewest | GeoTrack/Domain/GeoTrackService.cs:87-99 | the trim removes only positions older than the last one minus the window, and the last position survives |
| GeoTracking.WindowBoundInOrder | GeoTrack/Domain/GeoTrackService.cs:54-55 | for positions in time order the window stays in order, ends with the new position, and holds nothing older than it minus the window |
| GeoTracking.MaxDistanceTo | GeoTrack/Domain/GeoTrackService.cs:118-125 | the largest distance to a point: non-negative, an upper bound, and attained or 0 |
| GeoTracking.MaxPairStep | GeoTrack/Domain/GeoTrackService.cs:115-126 | adding a position raises the pairwise maximum to at most the largest distance to the new position |
| GeoTracking.MaxPairDistanceIsMax | GeoTrack/Domain/GeoTrackService.cs:115-126 | the pairwise maximum is non-negative, bounds every pair, and is 0 or the distance of some pair |
| GeoTracking.MaxPairUnique | GeoTrack/Domain/GeoTrackService.cs:115-126 | that characterisation determines the maximum |
| GeoTracking.MetricsOfMeaning | GeoTrack/Domain/GeoTrackService.cs:101-131 | zeros below two positions; otherwise a span of at least 1 s that is the elapsed time when that is longer, average speed = path length / span, and the pairwise maximum |
| GeoTracking.ComputeMetrics | GeoTrack/Domain/GeoTrackService.cs:101-131 | the loops compute exactly the metrics of the window |
| GeoTracking.TotalDistance | GeoTrack/Domain/GeoTrackService.cs:109-113 | the first loop sums the distances between consecutive positions |
| GeoTracking.MaxPair | GeoTrack/Domain/GeoTrackService.cs:115-126 | the nested loops find the largest pairwise distance |
| GeoTracking.Decide | GeoTrack/Domain/GeoTrackService.cs:133-147 | Stationary if and only if compact and slow; Moving if and only if not that and fast enough; otherwise Idle; never Unknown |
| GeoTracking.Zeroed | GeoTrack/Domain/GeoTrackService.cs:164-170 | the same keys, all zero |
| GeoTracking.Bumped | GeoTrack/Domain/GeoTrackService.cs:149-162 | the same keys; the candidate's counter goes up by one and the others become zero |
| GeoTracking.HysteresisKeepsCountersOk | GeoTrack/Domain/GeoTrackService.cs:66-81 | the commit rule keeps at most one counter non-zero |
| GeoTracking.HysteresisCommitRule | GeoTrack/Domain/GeoTrackService.cs:66-81 | the status changes if and only if the candidate differs and its counter reaches `ConfirmCount`, and then only to the candidate with every counter cleared; a repeated status clears the counters |
| GeoTracking.TwoConsecutiveCandidatesCommit | GeoTrack/Domain/GeoTrackService.cs:66-81 | with `ConfirmCount` 2, one differing candidate is held back and the second in a row is committed |
| GeoTracking.StreakRestarts | GeoTrack/Domain/GeoTrackService.cs:149-162 | a different candidate restarts the count at one |
| GeoTracking.Classify | GeoTrack/Domain/GeoTrackService.cs:63-64 | the candidate of a window is always one of the three decided statuses |
| GeoTracking.ObserveClassifies | GeoTrack/Domain/GeoTrackService.cs:54-83 | an accepted position with enough points leads to classification and the commit rule |
| GeoTracking.ObserveReturnsStatus | GeoTrack/Domain/GeoTrackService.cs:49-83 | the returned status is the window's status afterwards |
| GeoTracking.ObserveRejectsJump | GeoTrack/Domain/GeoTrackService.cs:37-52 | a jump leaves the window exactly as it was |
| GeoTracking.ObserveAcceptsWithoutElapsedTime | GeoTrack/Domain/GeoTrackService.cs:40-41 | a position that is no later than the last one is never rejected, and it survives the trim |
| GeoTracking.ObserveTooFewPoints | GeoTrack/Domain/GeoTrackService.cs:58-61 | below `MinPoints` only the positions change |
| GeoTracking.ObserveKeepsInvariant | GeoTrack/Domain/GeoTrackService.cs:27-85 | every step keeps the counter invariant, never returns to Unknown, and grows the window by at most one |
| GeoTracking.ObserveAll | GeoTrack/Domain/GeoTrackService.cs:27-85 | a run of positions keeps the counter invariant |
| GeoTracking.TooFewPositionsStayUnknown | GeoTrack/Domain/GeoTrackService.cs:58-61 | a fresh window stays Unknown until `MinPoints` positions have arrived |
| GeoTracking.OutOfOrderKeepsStalePosition | GeoTrack/Domain/GeoTrackService.cs:87-99 | a position 150 s older than the last one is appended and nothing is trimmed |
| GeoTracking.GeoTrackService.constructor | GeoTrack/Domain/GeoTrackService.cs:15-25 | the service holds its store and options |
| GeoTracking.GeoTrackService.OnPosition | GeoTrack/Domain/GeoTrackService.cs:27-85 | a blank id fails and changes nothing; otherwise the device's window (created on first sight) takes one `Observe` step, its status is returned, and no other window changes |
| GeoTracking.GeoTrackService.Locked | GeoTrack/Domain/GeoTrackService.cs:35-84 | the lock block performs exactly one `Observe` step on the window and keeps its counters valid |
| GeoTracking.GeoTrackService.JumpsFrom | GeoTrack/Domain/GeoTrackService.cs:37-52 | the outlier test: there is a last position, time has elapsed, and the speed exceeds `OutlierJumpMeters` |
| GeoTracking.GeoTrackService.Commit | GeoTrack/Domain/GeoTrackService.cs:66-81 | the status and counters afterwards are those the commit rule gives |
| GeoTracking.GeoTrackService.Trim | GeoTrack/Domain/GeoTrackService.cs:87-99 | the positions afterwards are the trimmed window |
| GeoTracking.GeoTrackService.IncrementCounter | GeoTrack/Domain/GeoTrackService.cs:149-162 | the counters afterwards are `Bumped` |
| GeoTracking.GeoTrackService.ResetCounters | GeoTrack/Domain/GeoTrackService.cs:164-170 | the counters afterwards are `Zeroed` |
| TokenManagement.ShouldRefresh | GeoTrack/ExternalAppTokenManager.cs:151-153 | a refresh is due exactly when expiry is at most 60 s away; an expired token is always due |
| TokenManagement.LoginWhenMissingOrExpired | GeoTrack/ExternalAppTokenManager.cs:35-38 | with no token or an expired one, exactly one login is sent; success stores and returns its token, failure leaves the stored token |
| TokenManagement.RefreshWhenDue | GeoTrack/ExternalAppTokenManager.cs:39-51 | a due token is refreshed (a blank refresh token sends nothing); any refresh failure discards the token and falls back to login; on success the new access token is returned |
| TokenManagement.ReuseWhenFresh | GeoTrack/ExternalAppTokenManager.cs:35-53 | a token not yet due is returned as it is and nothing is sent |
| TokenManagement.AcquireReturnsStored | GeoTrack/ExternalAppTokenManager.cs:29-59 | the value returned is the stored token's access token and is never blank; at most two requests are sent |
| TokenManagement.IssuedByLogin | GeoTrack/ExternalAppTokenManager.cs:79-97 | a successful login needs a 2xx response with a non-blank access token; the refresh token defaults to "" and expiry is `now + ExpiresIn` |
| TokenManagement.IssuedByRefresh | GeoTrack/ExternalAppTokenManager.cs:120-138 | a successful refresh needs a 2xx response with a non-blank access token; it keeps the old refresh token when none is returned |
| TokenManagement.ExternalAppTokenManager.constructor | GeoTrack/ExternalAppTokenManager.cs:13-19 | no stored token and nothing sent |
| TokenManagement.ExternalAppTokenManager.GetAccessToken | GeoTrack/ExternalAppTokenManager.cs:29-59 | the stored token, the result and the requests sent are those the `Acquire` decision gives |
| TokenManagement.ExternalAppTokenManager.LoginInternal | GeoTrack/ExternalAppTokenManager.cs:66-101 | one login is sent; the token it yields is stored, or the failure is thrown and the stored token is kept |
| TokenManagement.ExternalAppTokenManager.RefreshInternal | GeoTrack/ExternalAppTokenManager.cs:103-142 | with no token or a blank refresh token it throws without sending; otherwise one refresh is sent and its token stored, or the failure is thrown |
| HttpRetry.TimeoutSeconds | GeoTrack/HttpClientFactory.cs:14 | the configured seconds when positive, else 10 |
| HttpRetry.Create | GeoTrack/HttpClientFactory.cs:12-19 | a client exactly when the seconds are at most `int.MaxValue` milliseconds, with the time-out those seconds in ticks; otherwise the `Timeout` setter's exception |
| HttpRetry.CreateRange | GeoTrack/HttpClientFactory.cs:14-18 | up to 2,147,483 s is accepted, 2,147,484 s or more throws, and the default gives 10 s |
| HttpRetry.Retries | GeoTrack/HttpClientFactory.cs:27 | `max(0, RetryCount)` |
| HttpRetry.RetryDelay | GeoTrack/HttpClientFactory.cs:28 | the configured delay when positive, else 2 s |
| HttpRetry.FinalAttempt | GeoTrack/HttpClientFactory.cs:30-66 | the last attempt is within the allowed range |
| HttpRetry.FinalAttemptIsFirstSettled | GeoTrack/HttpClientFactory.cs:30-66 | every attempt before the last was transient, and the last is not transient unless it was the last allowed |
| HttpRetry.FinalAttemptUnique | GeoTrack/HttpClientFactory.cs:30-66 | those two facts determine the last attempt |
| HttpRetry.SendWithRetry | GeoTrack/HttpClientFactory.cs:21-69 | attempts are made up to the first non-transient outcome or the last allowed one; the call ends as that outcome dictates, with one delay between each pair of attempts |
| HttpRetry.AttemptsBounded | GeoTrack/HttpClientFactory.cs:30 | between 1 and `retries + 1` attempts |
| HttpRetry.FirstGoodResponseReturned | GeoTrack/HttpClientFactory.cs:38-41 | the first response below 500 is returned at once |
| HttpRetry.LastAttemptIsFinal | GeoTrack/HttpClientFactory.cs:38-50 | on the last allowed attempt, a 5xx response is returned, a time-out becomes "Request timed out", and a transport failure propagates |
| HttpRetry.TransientRetriedWhileAttemptsRemain | GeoTrack/HttpClientFactory.cs:38-54 | a transient outcome is final only on the last allowed attempt |
| HttpRetry.CancellationStops | GeoTrack/HttpClientFactory.cs:43 | the caller's cancellation ends the call at once |
| ResultEnvelope.DefaultErrorPart | GeoTrack/Modal/CommonResultDto.cs:24-32 | not successful, no detail, notification or message, and an empty error list |
| ResultEnvelope.DefaultResult | GeoTrack/Modal/CommonResultDto.cs:33-36 | the default error part and no payloads |
| ResultEnvelope.CloneError | GeoTrack/Modal/CommonResultDto.cs:11-21 | copies the success flag, detail, notification and errors; the message and payloads are not copied |
| ResultEnvelope.Failed | GeoTrack/Modal/CommonResultDto.cs:37-49 | a failure whose detail has the code, message and parameters, and whose notification has the message, data and parameters |
| ResultEnvelope.FailedFromException | GeoTrack/Modal/CommonResultDto.cs:50-60 | a failure whose detail has `ThrowEx_500` and the exception message, with no notification |
| ResultEnvelope.FailedFromExceptionWith | GeoTrack/Modal/CommonResultDto.cs:61-72 | as above, with the parameters in the detail |
| ResultEnvelope.FailedValidation | GeoTrack/Modal/CommonResultDto.cs:73-80 | a failure carrying only the validation errors |
| ResultEnvelope.Ok | GeoTrack/Modal/CommonResultDto.cs:81-95 | a success with the payload; a notification exactly when the message is non-empty, carrying the notification data or else the payload |
| ResultEnvelope.CloneErrorPreservesFactoryResults | GeoTrack/Modal/CommonResultDto.cs:11-21 | cloning a factory result keeps its whole error part and its success |
| ResultEnvelope.FactoriesDecideSuccess | GeoTrack/Modal/CommonResultDto.cs:37-95 | every `Failed` overload fails, `Ok` succeeds, and none sets the message |
| ResultEnvelope.CloneErrorIdempotent | GeoTrack/Modal/CommonResultDto.cs:11-21 | cloning a clone gives the clone |
| CommandLine.TryParseInt32 | GpsClient/Program.cs:145 | a parsed value always fits in 32 bits |
| CommandLine.DecimalValueOfDigits | GpsClient/Program.cs:145 | reading back the decimal digits of a number gives the number |
| CommandLine.ParsesIntToString | GpsClient/Program.cs:145-148 | every 32-bit integer written in decimal parses back to itself |
| CommandLine.Step | GpsClient/Program.cs:142-161 | one step consumes one or two arguments |
| CommandLine.Parse | GpsClient/Program.cs:135-165 | the loop's result is the left-to-right scan from the defaults |
| CommandLine.ScanAppend | GpsClient/Program.cs:140-162 | scanning a closed prefix and then the rest is scanning the whole |
| CommandLine.NoArgumentsGiveDefaults | GpsClient/Program.cs:137-138 | no arguments give `GPS-0001` and 5001 |
| CommandLine.LaterFlagOverrides | GpsClient/Program.cs:143-157 | a later `--port` wins when its value parses and keeps the old port otherwise; a later `--deviceId` wins verbatim |
| CommandLine.StrayArgumentsIgnored | GpsClient/Program.cs:158-161 | a trailing flag or an unknown argument changes nothing |
| CommandLine.FlagsIgnoreCase | GpsClient/Program.cs:143-157 | flag names match whatever their case |
| CommandLine.PortRoundTrip | GpsClient/Program.cs:143-148 | `--port n` selects `n` for every 32-bit `n` |
| Common.FoldIdempotent | GeoTrack/BuggyRepository.cs:11-12 | folding a folded key changes nothing |
| Common.IgnoresAsciiCase | GeoTrack/Domain/DeviceWindowStore.cs:35 | strings that agree up to ASCII case fold to the same key |

## Left out

- Haversine trigonometry: the distance is a function parameter, because floating-point
  trigonometry is not modelled. Every property holds for any distance function.
- Floating point: `double` is `real`. Rounding, NaN and infinities are not modelled.
- Locks and `SemaphoreSlim`: each operation is modelled as one atomic step. `ConcurrentDictionary`
  is a plain map, so concurrent interleavings are not modelled.
- `DateTime.UtcNow` and `DateTimeOffset.UtcNow` are a `now` parameter. Within one
  `GetAccessTokenAsync` call, the model reads the same instant everywhere.
- `DateTime`, `TimeSpan` and `AddSeconds` overflow: ticks are unbounded integers.
- Networking: the TCP server and client, the external sender, the configuration loader, the UI forms
  and `Dispose` are outside this model. So are the status-changed and log events, and the console
  messages of `Parse`.
- HTTP and JSON: each POST is an `Exchange` value, already deserialised. JSON errors and the
  exception type are not modelled; only the message is kept.
- HttpRetry.SendWithRetry: cancellation during `Task.Delay` is not modelled. The delays are only
  recorded, and the caller's cancellation is one outcome of `SendAsync`. The
  "Retry loop exited unexpectedly" throw is proved unreachable.
- HttpRetry.Create: the `ArgumentOutOfRangeException` the `Timeout` setter throws is a `Failure` whose
  text is not the exception's message.
- Case-insensitive comparison folds ASCII letters only. Unicode case mapping is not modelled.
- Nulls: `null` is `Option.None`, and null arguments that the source would dereference are out of
  scope.
- CommandLine.TryParseInt32: culture-specific signs, thousands separators and full-width digits are
  not modelled. It accepts ASCII white space, an optional sign, ASCII digits and the 32-bit range.
- Repository.BuggyRepository.Snapshot: the enumeration order of the dictionary is left open.
- BuggyStates.BuggyState.AddSample: the source writes the station id into the caller's message
  object when the device id is blank. The model stores a copy instead, so the caller never sees that
  change.
- `LinkedList<Position>` and `List<GeoSample>` are modelled as `seq` fields that are reassigned.
- Helper methods split from the source's methods without changing behaviour:
  - `GeoTrackService.Locked`, `JumpsFrom` and `Commit`, from `OnPosition`;
  - `TotalDistance` and `MaxPair`, from `ComputeMetrics`;
  - `BuggyRepository.StateFor`, from `Update`.
- GeoTracking.GeoTrackService.OnPosition: the framing is per window object, and the store is the
  concrete in-memory store. The `IDeviceWindowStore` interface is not modelled.
- The cumulative-distance classifier and `idleDurationSeconds`: no code computes them, so
  `MapToBuggyDto` leaves `idleDurationSeconds` at 0.
