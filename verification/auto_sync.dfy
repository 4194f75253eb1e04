/** The telemetry auto-sync service: a `shouldSync` flag, the sync-mode
    preference, and the work each timer tick invokes. A tick is modelled by
    the set of collaborator calls it issues, not by when they complete. */
module AutoSync {
  import opened Wrappers
  import opened SpeedTelemetry

  /** Where the active profile came from; only server profiles sync. */
  datatype ProfileSource = Local | Server

  /** The preference key under which the sync mode is stored. Its literal
      lives in src/preference-keys.ts, which is not part of this model;
      nothing proved here depends on its value. */
  const KeyAutoSyncMode: string := "auto_sync_mode"

  /** The sync mode is a string enum; `getSyncMode` casts whatever string
      is stored without checking it, so the model keeps it a string. */
  type SyncMode = string

  /** The service's state: its own flag, plus the shared preference store
      it reads and writes the sync mode through. */
  datatype Service = Service(shouldSync: bool, preferences: map<string, string>)

  /** A freshly constructed service: the flag starts false. */
  function Construct(preferences: map<string, string>): (s: Service)
    ensures !s.shouldSync && s.preferences == preferences
  {
    Service(false, preferences)
  }

  function Start(s: Service): (r: Service)
    ensures r.shouldSync
    ensures r.preferences == s.preferences
  {
    s.(shouldSync := true)
  }

  function Pause(s: Service): (r: Service)
    ensures !r.shouldSync
    ensures r.preferences == s.preferences
  {
    s.(shouldSync := false)
  }

  function Continue(s: Service): (r: Service)
    ensures r.shouldSync
    ensures r.preferences == s.preferences
  {
    s.(shouldSync := true)
  }

  /** Each control is idempotent, and the last one called decides the flag. */
  lemma ControlsIdempotent(s: Service)
    ensures Start(Start(s)) == Start(s)
    ensures Pause(Pause(s)) == Pause(s)
    ensures Continue(Continue(s)) == Continue(s)
    ensures Continue(Pause(s)) == Continue(s) && Pause(Continue(s)) == Pause(s)
  {
  }

  /** The stored sync mode, or `None` (undefined) when nothing is stored. */
  function GetSyncMode(s: Service): (r: Option<SyncMode>)
    ensures r.Some? <==> KeyAutoSyncMode in s.preferences
    ensures r.Some? ==> r.value == s.preferences[KeyAutoSyncMode]
  {
    if KeyAutoSyncMode in s.preferences then Some(s.preferences[KeyAutoSyncMode]) else None
  }

  /** Stores the mode under the one sync-mode key. */
  function SetSyncMode(s: Service, mode: SyncMode): (r: Service)
    ensures GetSyncMode(r) == Some(mode)
    ensures r.shouldSync == s.shouldSync
    ensures r.preferences.Keys == s.preferences.Keys + {KeyAutoSyncMode}
    ensures forall k :: k in s.preferences && k != KeyAutoSyncMode ==> r.preferences[k] == s.preferences[k]
  {
    s.(preferences := s.preferences[KeyAutoSyncMode := mode])
  }

  /** The collaborator calls a tick can issue. */
  datatype Action =
    | FetchSpeedLog
    | FetchActiveProfile
    | SyncAssessmentEvents(persistedOnly: bool)
    | UpdateContentState
    | TelemetrySync

  /** Calls issued by the course-progress and assessment sync for the
      outcome of the active-profile lookup: the two remote handlers run only
      for a server profile, assessments with `persistedOnly` set. */
  function SyncAllCourseProgressAndAssessmentEvents(profile: Result<ProfileSource>): (r: set<Action>)
    ensures FetchActiveProfile in r
    ensures SyncAssessmentEvents(true) in r <==> profile == Success(Server)
    ensures UpdateContentState in r <==> profile == Success(Server)
    ensures SyncAssessmentEvents(false) !in r && FetchSpeedLog !in r && TelemetrySync !in r
  {
    {FetchActiveProfile} + if profile == Success(Server) then {SyncAssessmentEvents(true), UpdateContentState} else {}
  }

  /** What the collaborators answer during one tick. */
  datatype TickInput = TickInput(
    speedLog: Result<DownloadSpeedLog>,
    profile: Result<ProfileSource>,
    flush: Result<()>)

  /** One tick: the calls it issued, the speed event it logged, how the
      telemetry flush settled after its error handling (`None` when no
      flush was started, `Some(None)` for a caught failure), and whether
      the returned stream emitted for it. */
  datatype TickTrace = TickTrace(
    actions: set<Action>,
    speedEvent: Option<InteractEvent>,
    flushed: Option<Option<()>>,
    emitted: bool)

  /** The error containment around the telemetry flush: a failed flush
      becomes `undefined`, a successful one keeps its value. */
  function CatchFlushError<T>(outcome: Result<T>): (r: Option<T>)
    ensures r.None? <==> outcome.Failure?
    ensures r.Some? ==> r.value == outcome.value
  {
    match outcome
    case Success(v) => Some(v)
    case Failure(_) => None
  }

  /** One firing of the interval timer. The speed report and the course
      sync are invoked unconditionally; the flag, read at the filter,
      gates only the telemetry flush and the stream's emission. */
  function Tick(s: Service, intervalTime: int, input: TickInput): (r: TickTrace)
    ensures FetchSpeedLog in r.actions && FetchActiveProfile in r.actions
    ensures TelemetrySync in r.actions <==> s.shouldSync
    ensures r.emitted <==> s.shouldSync
    ensures SyncAssessmentEvents(true) in r.actions <==> input.profile == Success(Server)
    ensures UpdateContentState in r.actions <==> input.profile == Success(Server)
    ensures SyncAssessmentEvents(false) !in r.actions
    ensures r.speedEvent == SpeedReport(intervalTime, input.speedLog)
    ensures r.flushed.Some? <==> s.shouldSync
    ensures r.flushed.Some? ==> (r.flushed.value.None? <==> input.flush.Failure?)
  {
    var speedEvent := SpeedReport(intervalTime, input.speedLog);
    var flush := if s.shouldSync then {TelemetrySync} else {};
    var flushed := if s.shouldSync then Some(CatchFlushError(input.flush)) else None;
    TickTrace({FetchSpeedLog} + SyncAllCourseProgressAndAssessmentEvents(input.profile) + flush,
      speedEvent, flushed, s.shouldSync)
  }

  /** A failed flush is caught: where a flush was started it settles to
      `undefined`, and the tick's calls, speed event and emission are those
      of a tick whose flush succeeded. */
  lemma FlushFailureContained(s: Service, intervalTime: int, input: TickInput, error: string)
    ensures var failed := Tick(s, intervalTime, input.(flush := Failure(error)));
      var succeeded := Tick(s, intervalTime, input.(flush := Success(())));
      && failed.flushed == (if s.shouldSync then Some(None) else None)
      && succeeded.flushed == (if s.shouldSync then Some(Some(())) else None)
      && failed.actions == succeeded.actions
      && failed.speedEvent == succeeded.speedEvent
      && failed.emitted == succeeded.emitted
  {
  }

  /** What happens to a started service: timer ticks interleaved with
      calls to `pause` and `continue`. */
  datatype Command = TickFired(input: TickInput) | PauseCalled | ContinueCalled

  datatype RunResult = RunResult(final: Service, ticks: seq<TickTrace>)

  function TickCount(cmds: seq<Command>): nat {
    if cmds == [] then 0
    else TickCount(cmds[..|cmds| - 1]) + if cmds[|cmds| - 1].TickFired? then 1 else 0
  }

  /** The flag after the commands: the last `pause` or `continue` decides,
      and ticks never change it. */
  function FlagAfter(initial: bool, cmds: seq<Command>): bool {
    if cmds == [] then initial
    else match cmds[|cmds| - 1]
      case PauseCalled => false
      case ContinueCalled => true
      case TickFired(_) => FlagAfter(initial, cmds[..|cmds| - 1])
  }

  /** The service after the commands, with one trace per tick. */
  function Run(s: Service, intervalTime: int, cmds: seq<Command>): (r: RunResult)
    ensures |r.ticks| == TickCount(cmds)
    ensures r.final.shouldSync == FlagAfter(s.shouldSync, cmds)
    ensures r.final.preferences == s.preferences
  {
    if cmds == [] then RunResult(s, [])
    else
      var prev := Run(s, intervalTime, cmds[..|cmds| - 1]);
      match cmds[|cmds| - 1]
      case PauseCalled => prev.(final := Pause(prev.final))
      case ContinueCalled => prev.(final := Continue(prev.final))
      case TickFired(input) => prev.(ticks := prev.ticks + [Tick(prev.final, intervalTime, input)])
  }

  function Emitted(ticks: seq<TickTrace>): nat {
    if ticks == [] then 0
    else Emitted(ticks[..|ticks| - 1]) + if ticks[|ticks| - 1].emitted then 1 else 0
  }

  /** A tick flushes telemetry exactly when the flag in force, set by the
      last `pause` or `continue` before it, is true; its speed report and
      course sync run either way. */
  lemma TickFlushesIffFlag(s: Service, intervalTime: int, cmds: seq<Command>, input: TickInput)
    ensures var ticks := Run(s, intervalTime, cmds + [TickFired(input)]).ticks;
      && |ticks| > 0
      && (TelemetrySync in ticks[|ticks| - 1].actions <==> FlagAfter(s.shouldSync, cmds))
      && FetchSpeedLog in ticks[|ticks| - 1].actions
      && FetchActiveProfile in ticks[|ticks| - 1].actions
  {
    assert (cmds + [TickFired(input)])[..|cmds|] == cmds;
  }

  function Fire(inputs: seq<TickInput>): (r: seq<Command>)
    ensures |r| == |inputs|
    ensures forall i :: 0 <= i < |inputs| ==> r[i] == TickFired(inputs[i])
  {
    if inputs == [] then [] else Fire(inputs[..|inputs| - 1]) + [TickFired(inputs[|inputs| - 1])]
  }

  /** A tick taken while paused: the speed report and the course sync ran,
      the flush did not, and the stream did not emit. */
  predicate PausedTick(t: TickTrace) {
    && FetchSpeedLog in t.actions && FetchActiveProfile in t.actions
    && TelemetrySync !in t.actions && t.flushed.None? && !t.emitted
  }

  /** A tick taken while syncing: all three steps ran and the stream
      emitted. */
  predicate SyncingTick(t: TickTrace) {
    && FetchSpeedLog in t.actions && FetchActiveProfile in t.actions
    && TelemetrySync in t.actions && t.flushed.Some? && t.emitted
  }

  /** After `pause`, every later tick still reports speed and runs the
      course sync, but none flushes telemetry and the stream stays silent. */
  lemma PauseStopsOnlyFlush(s: Service, intervalTime: int, inputs: seq<TickInput>)
    ensures var ticks := Run(Pause(s), intervalTime, Fire(inputs)).ticks;
      && |ticks| == |inputs|
      && (forall i :: 0 <= i < |ticks| ==> PausedTick(ticks[i]))
      && Emitted(ticks) == 0
  {
    PausedTicks(s, intervalTime, inputs);
    NoneEmitted(Run(Pause(s), intervalTime, Fire(inputs)).ticks);
  }

  /** After `continue` (or `start`), every later tick runs all three steps
      and the stream emits once per tick. */
  lemma ContinueRestoresFlush(s: Service, intervalTime: int, inputs: seq<TickInput>)
    ensures var ticks := Run(Continue(s), intervalTime, Fire(inputs)).ticks;
      && |ticks| == |inputs|
      && (forall i :: 0 <= i < |ticks| ==> SyncingTick(ticks[i]))
      && Emitted(ticks) == |inputs|
  {
    SyncingTicks(s, intervalTime, inputs);
    AllEmitted(Run(Continue(s), intervalTime, Fire(inputs)).ticks);
  }

  lemma {:induction false} PausedTicks(s: Service, intervalTime: int, inputs: seq<TickInput>)
    ensures var ticks := Run(Pause(s), intervalTime, Fire(inputs)).ticks;
      && |ticks| == |inputs|
      && forall i :: 0 <= i < |ticks| ==> PausedTick(ticks[i])
    decreases |inputs|
  {
    if inputs != [] {
      var prefix := inputs[..|inputs| - 1];
      PausedTicks(s, intervalTime, prefix);
      AllTicksKeepFlag(false, prefix);
      RunLastTick(Pause(s), intervalTime, inputs);
      var prev := Run(Pause(s), intervalTime, Fire(prefix));
      var last := Tick(prev.final, intervalTime, inputs[|inputs| - 1]);
      PausedTickOf(prev.final, intervalTime, inputs[|inputs| - 1]);
      AppendPaused(prev.ticks, last);
    }
  }

  lemma {:induction false} SyncingTicks(s: Service, intervalTime: int, inputs: seq<TickInput>)
    ensures var ticks := Run(Continue(s), intervalTime, Fire(inputs)).ticks;
      && |ticks| == |inputs|
      && forall i :: 0 <= i < |ticks| ==> SyncingTick(ticks[i])
    decreases |inputs|
  {
    if inputs != [] {
      var prefix := inputs[..|inputs| - 1];
      SyncingTicks(s, intervalTime, prefix);
      AllTicksKeepFlag(true, prefix);
      RunLastTick(Continue(s), intervalTime, inputs);
      var prev := Run(Continue(s), intervalTime, Fire(prefix));
      var last := Tick(prev.final, intervalTime, inputs[|inputs| - 1]);
      SyncingTickOf(prev.final, intervalTime, inputs[|inputs| - 1]);
      AppendSyncing(prev.ticks, last);
    }
  }

  /** One tick taken with the flag cleared is a paused tick. */
  lemma PausedTickOf(s: Service, intervalTime: int, input: TickInput)
    requires !s.shouldSync
    ensures PausedTick(Tick(s, intervalTime, input))
  {
  }

  /** One tick taken with the flag set is a syncing tick. */
  lemma SyncingTickOf(s: Service, intervalTime: int, input: TickInput)
    requires s.shouldSync
    ensures SyncingTick(Tick(s, intervalTime, input))
  {
  }

  lemma AppendPaused(ticks: seq<TickTrace>, last: TickTrace)
    requires forall i :: 0 <= i < |ticks| ==> PausedTick(ticks[i])
    requires PausedTick(last)
    ensures forall i :: 0 <= i < |ticks + [last]| ==> PausedTick((ticks + [last])[i])
  {
  }

  lemma AppendSyncing(ticks: seq<TickTrace>, last: TickTrace)
    requires forall i :: 0 <= i < |ticks| ==> SyncingTick(ticks[i])
    requires SyncingTick(last)
    ensures forall i :: 0 <= i < |ticks + [last]| ==> SyncingTick((ticks + [last])[i])
  {
  }

  lemma {:induction false} NoneEmitted(ticks: seq<TickTrace>)
    requires forall i :: 0 <= i < |ticks| ==> PausedTick(ticks[i])
    ensures Emitted(ticks) == 0
    decreases |ticks|
  {
    if ticks != [] {
      assert PausedTick(ticks[|ticks| - 1]);
      NoneEmitted(ticks[..|ticks| - 1]);
    }
  }

  lemma {:induction false} AllEmitted(ticks: seq<TickTrace>)
    requires forall i :: 0 <= i < |ticks| ==> SyncingTick(ticks[i])
    ensures Emitted(ticks) == |ticks|
    decreases |ticks|
  {
    if ticks != [] {
      assert SyncingTick(ticks[|ticks| - 1]);
      AllEmitted(ticks[..|ticks| - 1]);
    }
  }

  /** A run of ticks is the run of all but the last, plus the last tick
      taken in the state that run left. */
  lemma RunLastTick(s: Service, intervalTime: int, inputs: seq<TickInput>)
    requires inputs != []
    ensures var prev := Run(s, intervalTime, Fire(inputs[..|inputs| - 1]));
      var ticks := Run(s, intervalTime, Fire(inputs)).ticks;
      ticks == prev.ticks + [Tick(prev.final, intervalTime, inputs[|inputs| - 1])]
  {
    var cmds := Fire(inputs);
    assert cmds[..|cmds| - 1] == Fire(inputs[..|inputs| - 1]);
  }

  /** Ticks alone never change the flag. */
  lemma {:induction false} AllTicksKeepFlag(initial: bool, inputs: seq<TickInput>)
    ensures FlagAfter(initial, Fire(inputs)) == initial
    ensures TickCount(Fire(inputs)) == |inputs|
    decreases |inputs|
  {
    if inputs != [] {
      AllTicksKeepFlag(initial, inputs[..|inputs| - 1]);
      assert Fire(inputs)[..|inputs| - 1] == Fire(inputs[..|inputs| - 1]);
    }
  }
}
