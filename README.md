# Engagement-time tracking of `withTelemetryTracking`

`withTelemetryTracking(reactPlugin, Component, componentName?, className?)` wraps a
React component in a component class. Each instance of that class measures how
long the user was engaged with it. On mount it stamps the time, resets its counters
and starts a 100 ms idle check. Each user-activity event records the first and the
latest activity and closes an open idle period. Each idle check opens an idle
period once the user has been inactive for 5000 ms. On unmount, if there was any
activity, it sends one metric, "React Component Engaged Time (seconds)", through
`reactPlugin.trackMetric`, tagged with the resolved component name.

The model has two modules:

- `Engagement` (`engagement.dfy`) states the instance's bookkeeping on values.
  `TrackerState` holds the six timestamp and counter fields. `MountStep`,
  `TickStep` and `ActivityStep` are the three transitions. `EngagementTimeMs` and
  `EngagementTimeSeconds` are `getEngagementTimeSeconds`. `UnmountStep` says what
  `componentWillUnmount` does: throw, or return after tracking zero or one metric.
  `Inv` is the invariant every chronological sequence of events keeps. `Run`
  folds a sequence of `Event`s, and the lemmas about runs cover any sequence of
  mounts, idle checks and activities.
- `TelemetryTracking` (`telemetry_tracking.dfy`) holds the imperative part.
  `WithTelemetryTracking` is the higher-order component itself: it resolves the
  two optional arguments with `ResolveComponentName` and `ResolveClassName`, or
  throws the TypeError that line 20 raises for a component without a prototype. `ReactPlugin` is the metric sink, reduced to a log of its
  `trackMetric` calls. `TrackedComponent` is one wrapped-component instance. Its
  fields are the source's fields and its methods are `componentDidMount`, the
  interval callback (`IdleCheck`), `trackActivity` and `componentWillUnmount`.
  Each method is proved to move `State()` as the matching function of
  `Engagement` does, and to keep `Valid()`. The scenario methods at the end run
  whole lifecycles through the class.

Modelling choices:

- `Date.now()` is the `now` parameter of every method. The ghost field `clock` is
  the latest time seen. Every method requires `clock <= now`. This is an
  assumption about the environment, not a fact: `Date.now()` is wall-clock time,
  and a clock adjustment can step it back (see "## Left out").
- `setInterval`/`clearInterval` become the ghost flag `timerActive`. One firing of
  the interval is one call of `IdleCheck`, which requires the flag.
- The six DOM handlers (`onKeyDown`, `onMouseMove`, `onScroll`, `onMouseDown`,
  `onTouchStart`, `onTouchMove`) all call `trackActivity`. They are one method,
  `TrackActivity`.
- A thrown `Error` is the result `Fail(message)`.
- Times are integer milliseconds. The seconds value is the exact quotient, a `real`.
- `Component.prototype.constructor.name` is the parameter `prototype`: either
  `HasPrototype(constructorName)` or `NoPrototype` (an arrow-function component),
  for which reading `constructor` throws a TypeError when wrapping.
  A JavaScript argument is a `JsValue`, which is only as precise as `typeof x !== 'string'` needs.

Where the tests and the code disagree, the model follows the code. The tests in
`extensions/applicationinsights-react-js/test/withTelemetryTracking.test.tsx`
expect a metric named "React Component Times Clicked" whose average is the number
of clicks. The code binds no click handler and sends the engaged-time metric. The
scenario methods keep the assertions that agree with the code: no interaction
gives no call; an interaction gives exactly one call with sample count 1; a custom
name is used verbatim. They use an activity event where the tests simulate a click.

Two things the lemmas make explicit:

- An idle period still open at unmount is charged only its 5000 ms threshold,
  through `_idleCount`. The rest of the idle time counts as engaged
  (`OpenIdlePeriodChargedOnlyThreshold`).
- A mount at time 0 would leave `_mountTimestamp` at 0. Unmount would then throw and
  leave the interval running (`ComponentWillUnmount`, throwing path). `Date.now()`
  is never 0 in practice, so this is not listed as a defect.

## Model

| member | source | states |
|---|---|---|
| `TelemetryTracking.ResolveComponentName` | extensions/applicationinsights-react-js/src/withTelemetryTracking.tsx:19-21 | a string `componentName` is used verbatim; any other value (undefined, null, non-string) gives the wrapped component's constructor name, and throws a TypeError exactly when the component has no prototype |
| `TelemetryTracking.WithTelemetryTracking` | extensions/applicationinsights-react-js/src/withTelemetryTracking.tsx:17-27 | wrapping throws exactly when no string name is given and the component has no prototype; otherwise the returned class closes over the string name or else the constructor name, and over the string class name or else "" |
| `TelemetryTracking.ResolveClassName` | extensions/applicationinsights-react-js/src/withTelemetryTracking.tsx:23-25 | a string `className` is kept; any other value becomes the empty string |
| `TelemetryTracking.ReactPlugin.TrackMetric` | extensions/applicationinsights-react-js/src/withTelemetryTracking.tsx:85 | each `trackMetric` call appends exactly that metric and property map to the plugin's log |
| `TelemetryTracking.TrackedComponent.constructor` | extensions/applicationinsights-react-js/src/withTelemetryTracking.tsx:27-36 | a new instance has every timestamp and counter 0, no timer running, and closes over the resolved names and the plugin |
| `TelemetryTracking.TrackedComponent.ComponentDidMount` | extensions/applicationinsights-react-js/src/withTelemetryTracking.tsx:44-58 | mount time := now; first-active, last-active, idle-start, total-idle and idle-count := 0; the idle-check timer is running; the invariant holds |
| `TelemetryTracking.TrackedComponent.IdleCheck` | extensions/applicationinsights-react-js/src/withTelemetryTracking.tsx:52-57 | the new state is `TickStep` of the old; the timer stays running; the invariant is kept |
| `TelemetryTracking.TrackedComponent.TrackActivity` | extensions/applicationinsights-react-js/src/withTelemetryTracking.tsx:111-125 | the new state is `ActivityStep` of the old; an open idle period adds now − idle-start to total idle; total idle never decreases; the timer is untouched |
| `TelemetryTracking.TrackedComponent.ComponentWillUnmount` | extensions/applicationinsights-react-js/src/withTelemetryTracking.tsx:61-86 | it throws exactly when mount time is 0, and then leaves the timer and the plugin log as they were; otherwise it stops the timer and appends to the log exactly what `UnmountStep` emits; after activity it appends one metric whose average lies between 0 and the seconds since the first activity; the counters are unchanged |
| `Engagement.MountStep` | extensions/applicationinsights-react-js/src/withTelemetryTracking.tsx:44-50 | specified by `MountEstablishesInv`, `RunKeepsMountTimestamp` and `TelemetryTracking.TrackedComponent.ComponentDidMount` |
| `Engagement.TickStep` | extensions/applicationinsights-react-js/src/withTelemetryTracking.tsx:52-57 | specified by `TickOpensIdlePeriod`, `TickPreservesInv`, `RepeatedTicksOpenAtMostOnce` and `TicksWithoutActivityChangeNothing` |
| `Engagement.ActivityStep` | extensions/applicationinsights-react-js/src/withTelemetryTracking.tsx:111-125 | specified by `ActivityRecordsTimes`, `ActivityClosesIdlePeriod`, `ActivityPreservesInv`, `RunKeepsFirstActive` and `RunRecordsActivity` |
| `Engagement.EngagementTimeMs` | extensions/applicationinsights-react-js/src/withTelemetryTracking.tsx:127-129 | specified by `EngagementBounds`, `IdleGapExcluded` and `OpenIdlePeriodChargedOnlyThreshold` |
| `Engagement.EngagementTimeSeconds` | extensions/applicationinsights-react-js/src/withTelemetryTracking.tsx:127-129 | specified by `EngagementBounds` and `InteractionEmitsOneMetric` |
| `Engagement.UnmountStep` | extensions/applicationinsights-react-js/src/withTelemetryTracking.tsx:61-86 | specified by `UnmountWithoutMountThrows`, `NoInteractionNoMetric`, `InteractionEmitsOneMetric` and `TelemetryTracking.TrackedComponent.ComponentWillUnmount` |
| `Engagement.InitialInv` | extensions/applicationinsights-react-js/src/withTelemetryTracking.tsx:29-34 | the all-zero field initialisers satisfy the invariant at time 0 |
| `Engagement.MountEstablishesInv` | extensions/applicationinsights-react-js/src/withTelemetryTracking.tsx:44-50 | after a mount at any time ≥ 0 the invariant holds and no time is accounted for yet |
| `Engagement.TickOpensIdlePeriod` | extensions/applicationinsights-react-js/src/withTelemetryTracking.tsx:52-57 | the idle check changes the state if and only if last-active > 0, idle-start = 0 and now − last-active ≥ 5000; then it sets idle-start := now (> 0) and idle-count + 1 and changes nothing else; while a period is open it is a no-op |
| `Engagement.TickPreservesInv` | extensions/applicationinsights-react-js/src/withTelemetryTracking.tsx:52-57 | an idle check at a time no earlier than the clock keeps the invariant |
| `Engagement.ActivityRecordsTimes` | extensions/applicationinsights-react-js/src/withTelemetryTracking.tsx:113-118 | last-active := now always; the first activity sets first-active := now; a later one leaves first-active as it was; mount time and idle count are untouched |
| `Engagement.ActivityClosesIdlePeriod` | extensions/applicationinsights-react-js/src/withTelemetryTracking.tsx:120-124 | after an activity no idle period is open; an open one adds now − idle-start to total idle, otherwise total idle is unchanged; with a non-decreasing clock total idle never decreases |
| `Engagement.ActivityPreservesInv` | extensions/applicationinsights-react-js/src/withTelemetryTracking.tsx:111-125 | an activity at a time no earlier than the clock keeps the invariant |
| `Engagement.TimestampChain` | extensions/applicationinsights-react-js/src/withTelemetryTracking.tsx:53-124 | under the invariant, idle-start > 0 implies last-active > 0, and last-active > 0 implies first-active > 0 |
| `Engagement.EngagementBounds` | extensions/applicationinsights-react-js/src/withTelemetryTracking.tsx:127-129 | under the invariant, 0 ≤ engagement ms ≤ now − first-active, and the same bounds in seconds |
| `Engagement.RunPreservesInv` | extensions/applicationinsights-react-js/src/withTelemetryTracking.tsx:44-125 | any chronological sequence of mounts, idle checks and activities keeps the invariant, ending at the last event's time |
| `Engagement.RunIdleNeverDecreases` | extensions/applicationinsights-react-js/src/withTelemetryTracking.tsx:120-124 | between mounts, over any chronological run, total idle time and idle count never decrease |
| `Engagement.RunKeepsFirstActive` | extensions/applicationinsights-react-js/src/withTelemetryTracking.tsx:113-118 | between mounts, a non-zero first-active time never changes |
| `Engagement.RunKeepsMountTimestamp` | extensions/applicationinsights-react-js/src/withTelemetryTracking.tsx:45 | only a mount changes the mount time |
| `Engagement.RepeatedTicksOpenAtMostOnce` | extensions/applicationinsights-react-js/src/withTelemetryTracking.tsx:53-55 | any number of idle checks with no activity between them raise the idle count by at most one; while a period is open they change nothing |
| `Engagement.TicksWithoutActivityChangeNothing` | extensions/applicationinsights-react-js/src/withTelemetryTracking.tsx:53 | idle checks before any activity leave the state unchanged |
| `Engagement.RunRecordsActivity` | extensions/applicationinsights-react-js/src/withTelemetryTracking.tsx:113-115 | between mounts, a run containing an activity at a positive time leaves first-active > 0, no earlier than the run's start if none was recorded before |
| `Engagement.UnmountWithoutMountThrows` | extensions/applicationinsights-react-js/src/withTelemetryTracking.tsx:62-64 | unmounting a never-mounted instance throws "mountTimestamp is not initialized" and tracks nothing |
| `Engagement.NoInteractionNoMetric` | extensions/applicationinsights-react-js/src/withTelemetryTracking.tsx:69-71 | mount, any idle checks, unmount: no exception and no metric |
| `Engagement.InteractionEmitsOneMetric` | extensions/applicationinsights-react-js/src/withTelemetryTracking.tsx:73-85 | mount, a chronological run with an activity and no second mount, unmount: exactly one metric, named "React Component Engaged Time (seconds)", sample count 1, properties {"Component Name": name}, average = engagement seconds, with 0 ≤ average ≤ seconds since the first activity, which came after the mount |
| `Engagement.IdleGapExcluded` | extensions/applicationinsights-react-js/src/withTelemetryTracking.tsx:120-128 | activity at 1000, idle check at 6000, activity at 6500, unmount at 7000: one idle period, 500 ms closed idle time, 500 ms engagement |
| `Engagement.OpenIdlePeriodChargedOnlyThreshold` | extensions/applicationinsights-react-js/src/withTelemetryTracking.tsx:128 | an idle period still open at unmount is charged only the 5000 ms threshold: inactive from 1000 to 60000 ms still gives 54000 ms |
| `Engagement.ClockSteppingBackBreaksBounds` | extensions/applicationinsights-react-js/src/withTelemetryTracking.tsx:120-128 | if the clock steps back, the same code reports a negative engagement (−5.0 s) and lowers the total idle time (by 4000 ms), so the bounds need the monotone-clock assumption |
| `TelemetryTracking.NoInteractionScenario` | extensions/applicationinsights-react-js/test/withTelemetryTracking.test.tsx:31-35 | mount, an idle check, unmount through the class: no exception, and the plugin's log stays empty |
| `TelemetryTracking.CustomNameScenario` | extensions/applicationinsights-react-js/test/withTelemetryTracking.test.tsx:69-81 | a custom name, one activity, unmount through the class: exactly one call, the engaged-time metric with sample count 1, tagged with the name verbatim, worth the seconds since the activity |
| `TelemetryTracking.IdleGapScenario` | extensions/applicationinsights-react-js/src/withTelemetryTracking.tsx:52-129 | activity, three idle checks of which one opens a period, activity, unmount, through the class: exactly one call, 0.5 s, under the constructor name |
| `TelemetryTracking.ArrowComponentScenario` | extensions/applicationinsights-react-js/src/withTelemetryTracking.tsx:19-21 | an arrow-function component without a string name makes wrapping throw; with a string name it wraps, and a null class name becomes "" |
| `TelemetryTracking.UnmountBeforeMountScenario` | extensions/applicationinsights-react-js/src/withTelemetryTracking.tsx:62-64 | unmount without mount through the class: the error outcome, and nothing tracked |

## Left out

- Rendering (`render`, the wrapper `div`, prop pass-through): UI only, with no state. The class name is resolved and kept but never used.
- The 100 ms cadence of the interval: only its firings (`IdleCheck`) are modelled, at whatever times the caller picks.
- The callback reads `Date.now()` twice and `getEngagementTimeSeconds` reads it again. Each method reads the clock once, so one `now` serves all those reads.
- Floating-point rounding of the seconds value: the model divides exactly.
- `trackMetric` itself (batching, sending): an external call, modelled as an append to `ReactPlugin.trackedMetrics`.
- `Component.prototype.constructor.name`: runtime reflection, passed in as `prototype`. Only two cases are told apart: a prototype whose constructor has a name, and no prototype, which throws the TypeError. Any other shape of `Component` is not represented.
- A wall clock that steps back (an NTP or manual adjustment): every method requires `clock <= now`. `Engagement.EngagementBounds`, `Engagement.RunIdleNeverDecreases`, the last ensures of `Engagement.ActivityClosesIdlePeriod` and the average bound of `TelemetryTracking.TrackedComponent.ComponentWillUnmount` hold only under that assumption. `Engagement.ClockSteppingBackBreaksBounds` shows the source breaks them otherwise.
- `_buttonClickCount`, `_errorCount`, `_paginationCount`: declared and never updated, so they are not modelled.
- Click counting (the "Times Clicked" expectations of the tests): the code does not do it.
- A second `componentDidMount` on one instance, which would leak the first interval: `timerActive` is a flag, not a count of running intervals.
- `AISKU/Tests/sanitizer.e2e.tests.ts` and `test/TestComponentButton.tsx`: an end-to-end network test and a UI fixture, with no logic to model.
