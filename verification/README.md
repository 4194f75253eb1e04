# Telemetry auto-sync and content-state request model

A Dafny model of two pieces of the Sunbird mobile SDK.

The first is the telemetry auto-sync service. It starts a periodic timer
and sets a `shouldSync` flag. Each tick reports download speed, runs the
course-progress and assessment sync, and flushes buffered telemetry. `pause`
and `continue` clear and set the flag. The flag gates only the flush and the
returned stream's emission. The speed report turns the download manager's
raw speed histogram into one "network speed" interact event. Its
distribution always lists the twelve range labels `0-32` … `3584-above`, in
order. The sync mode is a string kept in the shared preferences under one key.

The second is the content-state read handler. It deletes the request's
`returnRefreshedContentStates` flag. It fills a missing or empty
`contentIds` list from the course's leaf nodes. It deletes a list that is
still empty. It then POSTs `{request: …}` to `apiPath + '/content/state/read'`
with bearer and user tokens, and hands the response body back unchanged.

Files:

- `wrappers.dfy`: `Option` (JavaScript's `undefined`) and `Result` (an
  asynchronous call that yields a value or errors).
- `speed_telemetry.dfy`: the speed log, JavaScript objects as
  insertion-ordered entry lists, the `rangeMap` fold and the interact event.
- `auto_sync.dfy`: the service state, the controls, the sync-mode accessors,
  one tick as the set of collaborator calls it issues, and runs of ticks
  interleaved with `pause`/`continue`.
- `content_state.dfy`: the request datatype, the request builder, and
  `handle` with the content lookup and the API fetch as function parameters.

Collaborators become parameters. These are the speed-log fetch, the profile
lookup, the telemetry flush, the content lookup and the API fetch. A tick
receives their outcomes as a `TickInput`. The handler receives the content
lookup and the fetch as total functions.

Points of the code the model keeps as written:

- The returned stream emits only on ticks where `shouldSync` is true: the
  `filter` at line 102 of `telemetry-auto-sync-service-impl.ts` sits before
  `mapTo(undefined)`.
- The course sync is started in an un-awaited `tap`. So the flag is read
  before that sync settles, and ticks are not serialised. The model records
  which calls a tick issues, not when they finish.
- The speed total is read from the field `totalKBdownloaded` (lower-case
  `d`). It is passed through as `totalKBDownloaded`.

## Model

| member | source | states |
|---|---|---|
| `SpeedTelemetry.GenerateDownloadSpeedTelemetry` | src/telemetry/util/telemetry-auto-sync-service-impl.ts:29-60 | no event iff the raw distribution has no keys; otherwise type OTHER, subtype network speed, env/pageId/id `sdk`, `duration * 1000 == intervalTime` exactly, the total passed through, the distribution equal to the 12-entry tabulation, key set exactly the labels of `rangeMap`, and each label reads back its bucket's truthy count or 0 |
| `SpeedTelemetry.SpeedReport` | src/telemetry/util/telemetry-auto-sync-service-impl.ts:20-46 | an event is logged iff the speed-log fetch succeeded and its distribution is non-empty, and it is then the transform's event |
| `SpeedTelemetry.Count` | src/telemetry/util/telemetry-auto-sync-service-impl.ts:52-56 | the reported count is 0 exactly when the bucket is missing or zero, and is the raw count otherwise |
| `SpeedTelemetry.Put` | src/telemetry/util/telemetry-auto-sync-service-impl.ts:53-55 | a property write adds the key to the key set, reads back the new value, leaves every other key's value alone, and appends a new key at the end |
| `SpeedTelemetry.Get` | src/telemetry/util/telemetry-auto-sync-service-impl.ts:53-55 | the observer the other contracts use to read back the values the reduce writes into the output object: a read finds a value exactly when the key is among the object's keys |
| `SpeedTelemetry.FoldRangeAppends` | src/telemetry/util/telemetry-auto-sync-service-impl.ts:51-59 | folding pairs with distinct labels, new to the accumulator, appends exactly their tabulation in order, with nothing overwritten |
| `SpeedTelemetry.RangeLabelsDistinct` | src/telemetry/util/telemetry-auto-sync-service-impl.ts:29-42 | no label of `rangeMap` occurs twice, so no bucket's count overwrites another's in the reduce |
| `SpeedTelemetry.RangeKeysShape` | src/telemetry/util/telemetry-auto-sync-service-impl.ts:29-42 | every raw bucket key that `rangeMap` reads is one of `32` … `4096` |
| `SpeedTelemetry.Distribution` | src/telemetry/util/telemetry-auto-sync-service-impl.ts:51-59 | the reduce over `rangeMap` equals the reference tabulation, has exactly the labels of `rangeMap` as keys, and each label reads back its bucket's count |
| `SpeedTelemetry.GetTabulate` | src/telemetry/util/telemetry-auto-sync-service-impl.ts:51-59 | with distinct labels, reading a label from the tabulation yields the count of the bucket it came from |
| `SpeedTelemetry.ForeignBucketsIgnored` | src/telemetry/util/telemetry-auto-sync-service-impl.ts:51-59 | adding or changing a raw bucket whose key is not in `rangeMap` leaves the distribution unchanged |
| `SpeedTelemetry.SingleBucketDistribution` | src/telemetry/util/telemetry-auto-sync-service-impl.ts:51-59 | a log whose only bucket is "32" yields that count under `0-32` and 0 under the eleven other labels, in order |
| `SpeedTelemetry.FiveSecondScenario` | src/telemetry/util/telemetry-auto-sync-service-impl.ts:48-60 | a 5000 ms interval with the log `{32: 10}` yields an event of duration 5 carrying that distribution |
| `AutoSync.Construct` | src/telemetry/util/telemetry-auto-sync-service-impl.ts:18 | a new service starts with the flag false |
| `AutoSync.Start` | src/telemetry/util/telemetry-auto-sync-service-impl.ts:96-97 | start sets the flag and leaves the preferences alone |
| `AutoSync.Pause` | src/telemetry/util/telemetry-auto-sync-service-impl.ts:116-118 | pause clears the flag and leaves the preferences alone |
| `AutoSync.Continue` | src/telemetry/util/telemetry-auto-sync-service-impl.ts:120-122 | continue sets the flag and leaves the preferences alone |
| `AutoSync.ControlsIdempotent` | src/telemetry/util/telemetry-auto-sync-service-impl.ts:116-122 | each control is idempotent, and whichever of pause/continue comes last decides the state |
| `AutoSync.GetSyncMode` | src/telemetry/util/telemetry-auto-sync-service-impl.ts:86-90 | the mode is present iff the sync-mode key is stored, and is then the stored string, unchecked |
| `AutoSync.SetSyncMode` | src/telemetry/util/telemetry-auto-sync-service-impl.ts:92-94 | reading the mode back after setting it yields that mode; the flag and every other preference are unchanged |
| `AutoSync.SyncAllCourseProgressAndAssessmentEvents` | src/telemetry/util/telemetry-auto-sync-service-impl.ts:124-138 | the profile is always fetched; assessment sync (with `persistedOnly: true`) and content-state update are each invoked iff the profile lookup yields a server profile |
| `AutoSync.CatchFlushError` | src/telemetry/util/telemetry-auto-sync-service-impl.ts:103-111 | a failed flush becomes undefined, a successful one keeps its value |
| `AutoSync.Tick` | src/telemetry/util/telemetry-auto-sync-service-impl.ts:99-112 | each tick invokes the speed report and the course sync whatever the flag; it invokes the flush, records the flush's settled outcome, and emits iff the flag is true; that outcome is `undefined` exactly when the flush failed; the remote handlers are invoked iff the profile is a server one; the logged speed event is the report's |
| `AutoSync.FlushFailureContained` | src/telemetry/util/telemetry-auto-sync-service-impl.ts:103-111 | a failed flush settles to `undefined` where a flush was started, and leaves the tick's calls, speed event and emission exactly as a successful flush does |
| `AutoSync.Run` | src/telemetry/util/telemetry-auto-sync-service-impl.ts:96-122 | every fired tick yields a trace, so no failure ends the stream; the final flag is the one set by the last pause/continue; the service's own code writes no preference during a run |
| `AutoSync.TickFlushesIffFlag` | src/telemetry/util/telemetry-auto-sync-service-impl.ts:99-103 | after any history, the next tick flushes iff the flag left by that history is true, and reports speed and fetches the profile either way |
| `AutoSync.PausedTicks` | src/telemetry/util/telemetry-auto-sync-service-impl.ts:99-118 | after pause, every fired tick yields a trace that reports speed and fetches the profile but neither flushes nor emits |
| `AutoSync.SyncingTicks` | src/telemetry/util/telemetry-auto-sync-service-impl.ts:96-122 | after continue, every fired tick yields a trace that reports speed, fetches the profile, flushes and emits |
| `AutoSync.PauseStopsOnlyFlush` | src/telemetry/util/telemetry-auto-sync-service-impl.ts:99-118 | after pause, every tick still reports speed and fetches the profile, none flushes, and the stream emits nothing |
| `AutoSync.ContinueRestoresFlush` | src/telemetry/util/telemetry-auto-sync-service-impl.ts:96-122 | after continue (or start), every tick flushes and the stream emits once per tick |
| `ContentState.BuildApiRequest` | src/course/handlers/get-content-state-handler.ts:40-51 | a POST to `apiPath + '/content/state/read'` with bearer and user tokens; the body never holds an empty id list; a non-empty list passes unchanged; only `contentIds` may differ from the input |
| `ContentState.ResponseBodyOf` | src/course/handlers/get-content-state-handler.ts:54-58 | a successful fetch yields its response's body; a failed fetch fails with the same error |
| `ContentState.FetchFromApi` | src/course/handlers/get-content-state-handler.ts:40-60 | sends the built request with no content lookup; the caller receives the response's body, or the fetch's error |
| `ContentState.Handle` | src/course/handlers/get-content-state-handler.ts:24-38 | the sent body never has the refresh flag or an empty id list; supplied non-empty ids are sent as given with no lookup; missing or empty ids cause one lookup by `courseId`, a failed lookup fails the call without sending, otherwise the leaf nodes (or none when empty/absent) are sent; the result is the response's body or the fetch's error; course id and other fields pass through |
| `ContentState.NormalisationIdempotent` | src/course/handlers/get-content-state-handler.ts:24-43 | handling the request that was sent sends exactly the same request again |
| `ContentState.SuppliedIdsIgnoreLookup` | src/course/handlers/get-content-state-handler.ts:27-37 | with non-empty ids supplied, the outcome is the same whatever the content lookup does |

## Left out

- Timing: the rxjs `interval` timer, its period and the ordering of asynchronous completions. A tick is the set of calls it issues.
- Concurrency: the `zip` join of the two remote handlers and the un-awaited async `tap`s are not modelled.
- The download manager plugin, the `cordova.exec` fallback, the telemetry logger's reply and console logging are foreign I/O. The fetch outcome is a tick input, and the event is recorded as data.
- `SpeedTelemetry.GenerateDownloadSpeedTelemetry`: counts are integers. A `NaN` count (falsy in JavaScript) and fractional totals are not modelled.
- `SpeedTelemetry.GenerateDownloadSpeedTelemetry`: the interval is an integer number of milliseconds, and the duration is an exact `real` rather than a floating-point division.
- `AutoSync.KeyAutoSyncMode`: the key's literal is defined in src/preference-keys.ts, which is not part of this model. The constant is a stand-in, and no proof depends on its value.
- `AutoSync.SyncMode`: the `TelemetryAutoSyncModes` enum is not part of this model. The mode is the stored string, as the unchecked cast in `getSyncMode` returns it.
- The `requiredFields` option passed to the profile lookup, and what happens inside the assessment sync, the content-state sync handler and the telemetry flush. These are collaborators, so only their invocation is recorded.
- `ContentState.Handle`: the caller's request object is mutated in place by `delete` and assignment. The model returns the request that was sent instead. After the call, the caller's object equals the sent body.
- `ContentState`: request builder defaults other than type, path, tokens and body are not modelled. Neither are the unused `GET_CONTENT_STATE_KEY_PREFIX` and the container-based content-service lookup.
- The FAQ details handler and the cached item store are outside the modelled core.
- `AutoSync.Run`: any writes the content-state sync handler makes to the shared preferences it is given (line 135) are not modelled. That handler is a collaborator, so only its invocation is recorded.
- `ContentState.Response`: only the status code and body of the API service's response are modelled. Headers and the rest of the response object are not.
