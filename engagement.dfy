/** The engagement-time bookkeeping of one instance of the component class that
    withTelemetryTracking returns, stated on values.

    All times are integer milliseconds as returned by Date.now(). The state
    value mirrors the instance fields; each event of the instance's life (mount,
    a firing of the 100 ms idle check, a user-activity event) is a function from
    state to state, and unmounting is a function from the state to what it does
    (throw, or return after tracking zero or one metric). The class in
    telemetry_tracking.dfy is proved to follow these functions. */
module Engagement {

  /** `_idleTimeout`: a user inactive this long (ms) is idle. */
  const IDLE_TIMEOUT: int := 5000

  const ENGAGED_TIME_METRIC_NAME: string := "React Component Engaged Time (seconds)"
  const COMPONENT_NAME_KEY: string := "Component Name"
  const MOUNT_NOT_INITIALIZED: string :=
    "withTelemetryTracking:componentWillUnmount: mountTimestamp is not initialized."

  /** The timestamp and counter fields of one instance. A timestamp of 0 means
      "not set": no mount, no activity yet, no idle period open. */
  datatype TrackerState = TrackerState(
    mountTimestamp: int,
    firstActiveTimestamp: int,
    lastActiveTimestamp: int,
    idleStartTimestamp: int,
    totalIdleTime: int,
    idleCount: int)

  /** A freshly constructed instance: every field initialiser is 0. */
  const INITIAL: TrackerState := TrackerState(0, 0, 0, 0, 0, 0)

  /** `IMetricTelemetry` as the instance fills it in. */
  datatype MetricTelemetry = MetricTelemetry(name: string, average: real, sampleCount: int)

  /** One call of `trackMetric(metric, properties)`. */
  datatype MetricCall = MetricCall(metric: MetricTelemetry, properties: map<string, string>)

  /** What componentWillUnmount does: throw, or return normally after tracking
      the metrics in `emitted` (in order). */
  datatype UnmountResult = Threw(message: string) | Returned(emitted: seq<MetricCall>)

  // ---------------------------------------------------------------------------
  // The transitions

  /** componentDidMount: stamp the mount time and reset every counter. The old
      state plays no part. */
  function MountStep(now: int): TrackerState {
    TrackerState(now, 0, 0, 0, 0, 0)
  }

  /** The guard of the interval callback: there has been activity, no idle
      period is open, and the user has been inactive for the threshold. */
  predicate IdleDue(s: TrackerState, now: int) {
    s.lastActiveTimestamp > 0 && s.idleStartTimestamp == 0 &&
    now - s.lastActiveTimestamp >= IDLE_TIMEOUT
  }

  /** The interval callback: open an idle period when it is due. */
  function TickStep(s: TrackerState, now: int): TrackerState {
    if IdleDue(s, now) then
      s.(idleStartTimestamp := now, idleCount := s.idleCount + 1)
    else
      s
  }

  /** trackActivity: record the first and the latest activity, then close an
      open idle period, charging its length to the total idle time. */
  function ActivityStep(s: TrackerState, now: int): TrackerState {
    var recorded :=
      if s.firstActiveTimestamp == 0 then
        s.(firstActiveTimestamp := now, lastActiveTimestamp := now)
      else
        s.(lastActiveTimestamp := now);
    if recorded.idleStartTimestamp > 0 then
      var lastIdleTime := recorded.lastActiveTimestamp - recorded.idleStartTimestamp;
      recorded.(totalIdleTime := recorded.totalIdleTime + lastIdleTime, idleStartTimestamp := 0)
    else
      recorded
  }

  /** getEngagementTimeSeconds, before the division by 1000: time since the
      first activity, less the closed idle time and the threshold once per
      idle period. */
  function EngagementTimeMs(s: TrackerState, now: int): int {
    now - s.firstActiveTimestamp - s.totalIdleTime - s.idleCount * IDLE_TIMEOUT
  }

  /** getEngagementTimeSeconds, divided exactly (no floating-point rounding). */
  function EngagementTimeSeconds(s: TrackerState, now: int): real {
    EngagementTimeMs(s, now) as real / 1000.0
  }

  /** The one metric an unmount after activity tracks. */
  function EngagementMetric(s: TrackerState, now: int, componentName: string): MetricCall {
    MetricCall(MetricTelemetry(ENGAGED_TIME_METRIC_NAME, EngagementTimeSeconds(s, now), 1),
               map[COMPONENT_NAME_KEY := componentName])
  }

  /** componentWillUnmount: throw if mount never stamped a time; otherwise track
      nothing without activity and the engagement metric with it. */
  function UnmountStep(s: TrackerState, now: int, componentName: string): UnmountResult {
    if s.mountTimestamp == 0 then
      Threw(MOUNT_NOT_INITIALIZED)
    else if s.firstActiveTimestamp == 0 then
      Returned([])
    else
      Returned([EngagementMetric(s, now, componentName)])
  }

  // ---------------------------------------------------------------------------
  // The invariant

  /** The start of the time not yet accounted for: the open idle period's
      start, or else the last activity. */
  function AccountedUntil(s: TrackerState): int {
    if s.idleStartTimestamp > 0 then s.idleStartTimestamp else s.lastActiveTimestamp
  }

  /** What holds of the state at clock time `t` whenever every event so far
      came at a time at most `t`, in non-decreasing order. The last conjunct is
      the accounting fact: the first activity, the closed idle time and one
      threshold per idle period fit before the time not yet accounted for. */
  ghost predicate Inv(s: TrackerState, t: int) {
    && 0 <= s.mountTimestamp <= t
    && 0 <= s.firstActiveTimestamp <= s.lastActiveTimestamp <= t
    && 0 <= s.idleStartTimestamp <= t
    && 0 <= s.totalIdleTime
    && 0 <= s.idleCount
    && (s.firstActiveTimestamp == 0 ==>
          s.lastActiveTimestamp == 0 && s.idleStartTimestamp == 0 &&
          s.totalIdleTime == 0 && s.idleCount == 0)
    && (s.idleStartTimestamp > 0 ==>
          s.lastActiveTimestamp > 0 && s.lastActiveTimestamp + IDLE_TIMEOUT <= s.idleStartTimestamp)
    && s.firstActiveTimestamp + s.totalIdleTime + s.idleCount * IDLE_TIMEOUT <= AccountedUntil(s)
  }

  lemma InitialInv()
    ensures Inv(INITIAL, 0)
  {
  }

  lemma InvLater(s: TrackerState, t: int, later: int)
    requires Inv(s, t) && t <= later
    ensures Inv(s, later)
  {
  }

  /** An open idle period implies an activity, which implies a first activity. */
  lemma TimestampChain(s: TrackerState, t: int)
    requires Inv(s, t)
    ensures s.idleStartTimestamp > 0 ==> s.lastActiveTimestamp > 0
    ensures s.lastActiveTimestamp > 0 ==> s.firstActiveTimestamp > 0
  {
  }

  lemma MountEstablishesInv(now: int)
    requires 0 <= now
    ensures Inv(MountStep(now), now)
    ensures AccountedUntil(MountStep(now)) == 0
  {
  }

  lemma TickPreservesInv(s: TrackerState, t: int, now: int)
    requires Inv(s, t) && t <= now
    ensures Inv(TickStep(s, now), now)
  {
  }

  lemma ActivityPreservesInv(s: TrackerState, t: int, now: int)
    requires Inv(s, t) && t <= now
    ensures Inv(ActivityStep(s, now), now)
  {
  }

  /** Engagement is never negative and never more than the time since the first
      activity: each idle period was opened only after a full threshold of
      inactivity, so what is subtracted was really spent. */
  lemma EngagementBounds(s: TrackerState, now: int)
    requires Inv(s, now)
    ensures 0 <= EngagementTimeMs(s, now) <= now - s.firstActiveTimestamp
    ensures 0.0 <= EngagementTimeSeconds(s, now) <= (now - s.firstActiveTimestamp) as real / 1000.0
  {
  }

  // ---------------------------------------------------------------------------
  // Single transitions

  /** The idle check opens a period exactly when it is due, and then changes
      nothing but the period's start and the count; otherwise it changes nothing.
      In particular it is a no-op while a period is open. */
  lemma TickOpensIdlePeriod(s: TrackerState, now: int)
    ensures IdleDue(s, now) <==> TickStep(s, now) != s
    ensures IdleDue(s, now) ==>
      TickStep(s, now).idleStartTimestamp == now && now > 0 &&
      TickStep(s, now).idleCount == s.idleCount + 1 &&
      TickStep(s, now).(idleStartTimestamp := s.idleStartTimestamp, idleCount := s.idleCount) == s
    ensures s.idleStartTimestamp != 0 ==> TickStep(s, now) == s
  {
  }

  /** The first activity sets both activity times to now; a later one moves
      only the last-activity time, leaving the first one as it was. */
  lemma ActivityRecordsTimes(s: TrackerState, now: int)
    ensures ActivityStep(s, now).lastActiveTimestamp == now
    ensures s.firstActiveTimestamp == 0 ==> ActivityStep(s, now).firstActiveTimestamp == now
    ensures s.firstActiveTimestamp != 0 ==>
      ActivityStep(s, now).firstActiveTimestamp == s.firstActiveTimestamp
    ensures ActivityStep(s, now).mountTimestamp == s.mountTimestamp
    ensures ActivityStep(s, now).idleCount == s.idleCount
  {
  }

  /** An activity during an open idle period closes it and adds the time from
      its start to this activity to the total; with no period open neither the
      total nor the period changes. The total never decreases. */
  lemma ActivityClosesIdlePeriod(s: TrackerState, t: int, now: int)
    requires Inv(s, t) && t <= now
    ensures ActivityStep(s, now).idleStartTimestamp == 0
    ensures s.idleStartTimestamp > 0 ==>
      ActivityStep(s, now).totalIdleTime == s.totalIdleTime + (now - s.idleStartTimestamp)
    ensures s.idleStartTimestamp == 0 ==> ActivityStep(s, now).totalIdleTime == s.totalIdleTime
    ensures ActivityStep(s, now).totalIdleTime >= s.totalIdleTime
  {
  }

  // ---------------------------------------------------------------------------
  // Runs of events

  /** An event of the instance's life at time `at` (ms). */
  datatype Event = Mount(at: int) | Tick(at: int) | Activity(at: int)

  function Step(s: TrackerState, e: Event): TrackerState {
    match e
    case Mount(at) => MountStep(at)
    case Tick(at) => TickStep(s, at)
    case Activity(at) => ActivityStep(s, at)
  }

  /** The state after the events in order. */
  function Run(s: TrackerState, events: seq<Event>): TrackerState
    decreases |events|
  {
    if events == [] then s else Run(Step(s, events[0]), events[1..])
  }

  /** The events come no earlier than `t` and in non-decreasing time order. */
  predicate Chronological(t: int, events: seq<Event>)
    decreases |events|
  {
    events == [] || (t <= events[0].at && Chronological(events[0].at, events[1..]))
  }

  /** The clock after the events: the last event's time, or `t` if none. */
  function EndTime(t: int, events: seq<Event>): int
    decreases |events|
  {
    if events == [] then t else EndTime(events[0].at, events[1..])
  }

  predicate OnlyTicks(events: seq<Event>) {
    forall i :: 0 <= i < |events| ==> events[i].Tick?
  }

  predicate NoMount(events: seq<Event>) {
    forall i :: 0 <= i < |events| ==> !events[i].Mount?
  }

  predicate HasActivity(events: seq<Event>) {
    exists i :: 0 <= i < |events| && events[i].Activity?
  }

  lemma StepPreservesInv(s: TrackerState, t: int, e: Event)
    requires Inv(s, t) && t <= e.at
    ensures Inv(Step(s, e), e.at)
  {
    match e
    case Mount(at) => MountEstablishesInv(at);
    case Tick(at) => TickPreservesInv(s, t, at);
    case Activity(at) => ActivityPreservesInv(s, t, at);
  }

  /** Any chronological sequence of mounts, idle checks and activities keeps the
      invariant, hence the timestamp chain and the engagement bounds. */
  lemma {:induction false} RunPreservesInv(s: TrackerState, t: int, events: seq<Event>)
    requires Inv(s, t) && Chronological(t, events)
    ensures t <= EndTime(t, events)
    ensures Inv(Run(s, events), EndTime(t, events))
    decreases |events|
  {
    if events != [] {
      StepPreservesInv(s, t, events[0]);
      RunPreservesInv(Step(s, events[0]), events[0].at, events[1..]);
    }
  }

  /** Between mounts, the total idle time and the idle count never decrease. */
  lemma {:induction false} RunIdleNeverDecreases(s: TrackerState, t: int, events: seq<Event>)
    requires Inv(s, t) && Chronological(t, events) && NoMount(events)
    ensures Run(s, events).totalIdleTime >= s.totalIdleTime
    ensures Run(s, events).idleCount >= s.idleCount
    decreases |events|
  {
    if events != [] {
      var next := Step(s, events[0]);
      if events[0].Activity? {
        ActivityClosesIdlePeriod(s, t, events[0].at);
      }
      StepPreservesInv(s, t, events[0]);
      assert NoMount(events[1..]) by {
        forall i | 0 <= i < |events[1..]| ensures !events[1..][i].Mount? {
          assert events[1..][i] == events[i + 1];
        }
      }
      RunIdleNeverDecreases(next, events[0].at, events[1..]);
    }
  }

  /** Between mounts, a first activity once recorded never changes. */
  lemma {:induction false} RunKeepsFirstActive(s: TrackerState, events: seq<Event>)
    requires NoMount(events) && s.firstActiveTimestamp != 0
    ensures Run(s, events).firstActiveTimestamp == s.firstActiveTimestamp
    decreases |events|
  {
    if events != [] {
      assert !events[0].Mount?;
      assert NoMount(events[1..]) by {
        forall i | 0 <= i < |events[1..]| ensures !events[1..][i].Mount? {
          assert events[1..][i] == events[i + 1];
        }
      }
      RunKeepsFirstActive(Step(s, events[0]), events[1..]);
    }
  }

  /** Between mounts, the mount timestamp never changes. */
  lemma {:induction false} RunKeepsMountTimestamp(s: TrackerState, events: seq<Event>)
    requires NoMount(events)
    ensures Run(s, events).mountTimestamp == s.mountTimestamp
    decreases |events|
  {
    if events != [] {
      assert !events[0].Mount?;
      assert NoMount(events[1..]) by {
        forall i | 0 <= i < |events[1..]| ensures !events[1..][i].Mount? {
          assert events[1..][i] == events[i + 1];
        }
      }
      RunKeepsMountTimestamp(Step(s, events[0]), events[1..]);
    }
  }

  /** Idle checks with no activity in between open at most one idle period:
      once one is open, further checks change nothing. */
  lemma {:induction false} RepeatedTicksOpenAtMostOnce(s: TrackerState, events: seq<Event>)
    requires OnlyTicks(events)
    ensures Run(s, events).idleCount <= s.idleCount + 1
    ensures s.idleStartTimestamp != 0 ==> Run(s, events) == s
    decreases |events|
  {
    if events != [] {
      assert events[0].Tick?;
      assert OnlyTicks(events[1..]) by {
        forall i | 0 <= i < |events[1..]| ensures events[1..][i].Tick? {
          assert events[1..][i] == events[i + 1];
        }
      }
      TickOpensIdlePeriod(s, events[0].at);
      RepeatedTicksOpenAtMostOnce(Step(s, events[0]), events[1..]);
    }
  }

  /** Idle checks before any activity change nothing. */
  lemma {:induction false} TicksWithoutActivityChangeNothing(s: TrackerState, events: seq<Event>)
    requires OnlyTicks(events) && s.lastActiveTimestamp == 0
    ensures Run(s, events) == s
    decreases |events|
  {
    if events != [] {
      assert events[0].Tick?;
      assert OnlyTicks(events[1..]) by {
        forall i | 0 <= i < |events[1..]| ensures events[1..][i].Tick? {
          assert events[1..][i] == events[i + 1];
        }
      }
      TicksWithoutActivityChangeNothing(Step(s, events[0]), events[1..]);
    }
  }

  /** Between mounts, once an activity at a positive time has happened, a first
      activity is recorded, no earlier than the run's start. */
  lemma {:induction false} RunRecordsActivity(s: TrackerState, t: int, events: seq<Event>)
    requires Inv(s, t) && 0 < t && Chronological(t, events)
    requires NoMount(events) && HasActivity(events)
    ensures Run(s, events).firstActiveTimestamp > 0
    ensures s.firstActiveTimestamp == 0 ==> Run(s, events).firstActiveTimestamp >= t
    decreases |events|
  {
    var rest := events[1..];
    assert NoMount(rest) by {
      forall i | 0 <= i < |rest| ensures !rest[i].Mount? {
        assert rest[i] == events[i + 1];
      }
    }
    var next := Step(s, events[0]);
    StepPreservesInv(s, t, events[0]);
    if events[0].Activity? {
      ActivityRecordsTimes(s, events[0].at);
      RunKeepsFirstActive(next, rest);
    } else {
      ActivityRecordsTimes(s, events[0].at);
      var i :| 0 <= i < |events| && events[i].Activity?;
      assert rest[i - 1] == events[i];
      RunRecordsActivity(next, events[0].at, rest);
    }
  }

  // ---------------------------------------------------------------------------
  // Lifecycles

  /** Unmounting an instance that was never mounted throws and tracks nothing. */
  lemma UnmountWithoutMountThrows(now: int, componentName: string)
    ensures UnmountStep(INITIAL, now, componentName) == Threw(MOUNT_NOT_INITIALIZED)
  {
  }

  /** Mount, any number of idle checks, unmount: nothing is tracked. */
  lemma NoInteractionNoMetric(mountAt: int, events: seq<Event>, now: int, componentName: string)
    requires 0 < mountAt && OnlyTicks(events)
    ensures UnmountStep(Run(MountStep(mountAt), events), now, componentName) == Returned([])
  {
    TicksWithoutActivityChangeNothing(MountStep(mountAt), events);
  }

  /** Mount, then any chronological events with at least one activity and no
      second mount, then unmount: exactly one metric is tracked, the engaged
      time metric with sample count 1, tagged with the component name, whose
      value is the engagement time in seconds, between 0 and the seconds since
      the first activity, which came after the mount. */
  lemma InteractionEmitsOneMetric(mountAt: int, events: seq<Event>, now: int, componentName: string)
    requires 0 < mountAt && Chronological(mountAt, events) && EndTime(mountAt, events) <= now
    requires NoMount(events) && HasActivity(events)
    ensures var s := Run(MountStep(mountAt), events);
      var r := UnmountStep(s, now, componentName);
      && r.Returned? && |r.emitted| == 1
      && r.emitted[0].metric.name == ENGAGED_TIME_METRIC_NAME
      && r.emitted[0].metric.sampleCount == 1
      && r.emitted[0].properties == map[COMPONENT_NAME_KEY := componentName]
      && r.emitted[0].metric.average == EngagementTimeSeconds(s, now)
      && mountAt <= s.firstActiveTimestamp
      && 0.0 <= r.emitted[0].metric.average <= (now - s.firstActiveTimestamp) as real / 1000.0
  {
    var s0 := MountStep(mountAt);
    MountEstablishesInv(mountAt);
    RunPreservesInv(s0, mountAt, events);
    RunRecordsActivity(s0, mountAt, events);
    RunKeepsMountTimestamp(s0, events);
    var s := Run(s0, events);
    InvLater(s, EndTime(mountAt, events), now);
    EngagementBounds(s, now);
  }

  /** Activity at 1000 ms, silence until an idle check at 6000 ms, activity again
      at 6500 ms, unmount at 7000 ms: one idle period is counted and the whole
      5500 ms gap is left out of the 6000 ms since the first activity. */
  lemma IdleGapExcluded()
    ensures var s := Run(MountStep(1), [Activity(1000), Tick(6000), Activity(6500)]);
      && s.idleCount == 1
      && s.totalIdleTime == 500
      && EngagementTimeMs(s, 7000) == 500
  {
  }

  /** An idle period still open at unmount is charged only its threshold: here
      the user is inactive from 1000 ms to 60000 ms, yet 54000 ms count as
      engaged. */
  lemma OpenIdlePeriodChargedOnlyThreshold()
    ensures var s := Run(MountStep(1), [Activity(1000), Tick(6000)]);
      && s.idleStartTimestamp == 6000
      && EngagementTimeMs(s, 60000) == 54000
  {
  }

  /** What the monotone-clock assumption buys: if the wall clock steps back,
      an unmount after activity reports a negative engagement time, and an
      activity that closes an idle period lowers the total idle time. */
  lemma ClockSteppingBackBreaksBounds()
    ensures EngagementTimeSeconds(Run(MountStep(1000), [Activity(10000)]), 5000) == -5.0
    ensures var s := Run(MountStep(1000), [Activity(1000), Tick(7000)]);
      && s.idleStartTimestamp == 7000
      && ActivityStep(s, 3000).totalIdleTime == s.totalIdleTime - 4000
  {
  }
}
