/** withTelemetryTracking: the higher-order component that wraps a React
    component so that each mounted instance measures how long the user was
    engaged with it and, at unmount, reports that time through the React
    plugin's trackMetric.

    Date.now() is the `now` parameter of each method; a ghost `clock` holds the
    last time seen and every method assumes, by its precondition, a time no
    earlier. Date.now() is wall-clock time and can in fact step back; the
    bounds proved here hold only under that assumption. The 100 ms
    interval is the ghost flag `timerActive`, and each of its firings is a call
    of IdleCheck. The six DOM events the wrapper listens to all call
    TrackActivity. */
module TelemetryTracking {
  import opened Engagement

  /** A JavaScript argument as far as `typeof x !== 'string'` tells them apart. */
  datatype JsValue = Undefined | Null | JsString(value: string) | NonString

  /** What the wrapped component offers for `Component.prototype.constructor.name`:
      a class or an ordinary function has a prototype whose constructor has a
      name (possibly empty); an arrow function has no prototype. */
  datatype Prototype = NoPrototype | HasPrototype(constructorName: string)

  /** The outcome of resolving the component name: a name, or the TypeError
      thrown by reading `constructor` of an undefined prototype. */
  datatype NameResolution = Named(name: string) | NameTypeError

  /** The name reported as "Component Name": the `componentName` argument when
      it is a string, and otherwise the wrapped component's constructor name,
      which throws when the component has no prototype. */
  function ResolveComponentName(componentName: JsValue, prototype: Prototype): (r: NameResolution)
    ensures componentName.JsString? ==> r == Named(componentName.value)
    ensures !componentName.JsString? && prototype.HasPrototype? ==> r == Named(prototype.constructorName)
    ensures r.NameTypeError? <==> !componentName.JsString? && prototype.NoPrototype?
  {
    if componentName.Undefined? || componentName.Null? || !componentName.JsString? then
      match prototype
      case NoPrototype => NameTypeError
      case HasPrototype(constructorName) => Named(constructorName)
    else
      Named(componentName.value)
  }

  /** The wrapper div's class: the `className` argument when it is a string,
      and otherwise the empty string. */
  function ResolveClassName(className: JsValue): (r: string)
    ensures className.JsString? ==> r == className.value
    ensures !className.JsString? ==> r == ""
  {
    if className.Undefined? || className.Null? || !className.JsString? then
      ""
    else
      className.value
  }

  /** The component class returned by withTelemetryTracking, reduced to what
      its instances close over. */
  datatype Wrapper = Wrapper(componentName: string, className: string)

  /** A call of withTelemetryTracking either returns the component class or throws. */
  datatype Wrapping = Wrapped(wrapper: Wrapper) | WrapTypeError

  /** withTelemetryTracking(reactPlugin, Component, componentName?, className?),
      with what `Component.prototype` offers passed in as `prototype`. It throws
      exactly when no string name is given and the component has no prototype;
      otherwise the class closes over the string name, or failing that the
      constructor name, and over the string class name, or failing that "". */
  function WithTelemetryTracking(componentName: JsValue, prototype: Prototype, className: JsValue): (r: Wrapping)
    ensures r.WrapTypeError? <==> !componentName.JsString? && prototype.NoPrototype?
    ensures r.Wrapped? ==>
      r.wrapper.componentName == (if componentName.JsString? then componentName.value else prototype.constructorName)
    ensures r.Wrapped? ==>
      r.wrapper.className == (if className.JsString? then className.value else "")
  {
    match ResolveComponentName(componentName, prototype)
    case NameTypeError => WrapTypeError
    case Named(name) => Wrapped(Wrapper(name, ResolveClassName(className)))
  }

  /** The React plugin, reduced to the log of its trackMetric calls. */
  class ReactPlugin {
    var trackedMetrics: seq<MetricCall>

    constructor ()
      ensures trackedMetrics == []
    {
      trackedMetrics := [];
    }

    method TrackMetric(metric: MetricTelemetry, properties: map<string, string>)
      modifies this
      ensures trackedMetrics == old(trackedMetrics) + [MetricCall(metric, properties)]
    {
      trackedMetrics := trackedMetrics + [MetricCall(metric, properties)];
    }
  }

  /** One instance of the wrapping component class. */
  class TrackedComponent {
    const plugin: ReactPlugin
    const componentName: string
    const className: string

    var mountTimestamp: int
    var firstActiveTimestamp: int
    var idleStartTimestamp: int
    var lastActiveTimestamp: int
    var totalIdleTime: int
    var idleCount: int

    /** The interval set up by componentDidMount is running. */
    ghost var timerActive: bool
    /** The latest time any method was given. */
    ghost var clock: int

    function State(): TrackerState
      reads this
    {
      TrackerState(mountTimestamp, firstActiveTimestamp, lastActiveTimestamp,
                   idleStartTimestamp, totalIdleTime, idleCount)
    }

    ghost predicate Valid()
      reads this
    {
      Inv(State(), clock)
    }

    constructor (plugin: ReactPlugin, wrapper: Wrapper)
      ensures Valid() && State() == INITIAL && !timerActive && clock == 0
      ensures this.plugin == plugin
      ensures componentName == wrapper.componentName && className == wrapper.className
    {
      this.plugin := plugin;
      componentName := wrapper.componentName;
      className := wrapper.className;
      mountTimestamp, firstActiveTimestamp, idleStartTimestamp := 0, 0, 0;
      lastActiveTimestamp, totalIdleTime, idleCount := 0, 0, 0;
      timerActive := false;
      clock := 0;
      InitialInv();
    }

    /** componentDidMount: stamp the mount, reset the counters, start the
        idle check. */
    method ComponentDidMount(now: int)
      requires Valid() && clock <= now
      modifies this
      ensures Valid() && clock == now
      ensures State() == MountStep(now)
      ensures mountTimestamp == now && firstActiveTimestamp == 0 && lastActiveTimestamp == 0
      ensures idleStartTimestamp == 0 && totalIdleTime == 0 && idleCount == 0
      ensures timerActive
    {
      mountTimestamp := now;
      firstActiveTimestamp := 0;
      totalIdleTime := 0;
      lastActiveTimestamp := 0;
      idleStartTimestamp := 0;
      idleCount := 0;
      timerActive := true;
      clock := now;
      MountEstablishesInv(now);
    }

    /** One firing of the interval callback set up by componentDidMount. */
    method IdleCheck(now: int)
      requires Valid() && timerActive && clock <= now
      modifies this
      ensures Valid() && clock == now && timerActive
      ensures State() == TickStep(old(State()), now)
    {
      ghost var before := State();
      if lastActiveTimestamp > 0 && idleStartTimestamp == 0 && now - lastActiveTimestamp >= IDLE_TIMEOUT {
        idleStartTimestamp := now;
        idleCount := idleCount + 1;
      }
      TickPreservesInv(before, clock, now);
      clock := now;
    }

    /** trackActivity, the handler of every user-activity event. */
    method TrackActivity(now: int)
      requires Valid() && clock <= now
      modifies this
      ensures Valid() && clock == now && timerActive == old(timerActive)
      ensures State() == ActivityStep(old(State()), now)
      ensures old(idleStartTimestamp) > 0 ==>
        totalIdleTime == old(totalIdleTime) + (now - old(idleStartTimestamp))
      ensures totalIdleTime >= old(totalIdleTime)
    {
      ghost var before := State();
      if firstActiveTimestamp == 0 {
        firstActiveTimestamp := now;
        lastActiveTimestamp := firstActiveTimestamp;
      } else {
        lastActiveTimestamp := now;
      }
      if idleStartTimestamp > 0 {
        var lastIdleTime := lastActiveTimestamp - idleStartTimestamp;
        totalIdleTime := totalIdleTime + lastIdleTime;
        idleStartTimestamp := 0;
      }
      ActivityPreservesInv(before, clock, now);
      ActivityClosesIdlePeriod(before, clock, now);
      clock := now;
    }

    /** componentWillUnmount. `Fail` stands for the thrown Error. Once the
        mount guard passes, `_intervalId` is always set (only componentDidMount
        sets a non-zero mount time, and it also sets the interval), so the
        interval is always cleared on that path. */
    method ComponentWillUnmount(now: int) returns (outcome: Outcome)
      requires Valid() && clock <= now
      modifies this, plugin
      ensures Valid() && clock == now && State() == old(State())
      ensures outcome.Fail? <==> old(mountTimestamp) == 0
      ensures match UnmountStep(old(State()), now, componentName)
        case Threw(message) =>
          && outcome == Fail(message)
          && timerActive == old(timerActive)
          && plugin.trackedMetrics == old(plugin.trackedMetrics)
        case Returned(emitted) =>
          && outcome == Pass
          && !timerActive
          && plugin.trackedMetrics == old(plugin.trackedMetrics) + emitted
      ensures outcome == Pass && old(firstActiveTimestamp) != 0 ==>
        && |plugin.trackedMetrics| == |old(plugin.trackedMetrics)| + 1
        && 0.0 <= plugin.trackedMetrics[|old(plugin.trackedMetrics)|].metric.average
              <= (now - firstActiveTimestamp) as real / 1000.0
    {
      InvLater(State(), clock, now);
      clock := now;
      if mountTimestamp == 0 {
        return Fail(MOUNT_NOT_INITIALIZED);
      }
      timerActive := false;
      if firstActiveTimestamp == 0 {
        return Pass;
      }
      var engagementTime := EngagementTimeSeconds(State(), now);
      var metricData := MetricTelemetry(ENGAGED_TIME_METRIC_NAME, engagementTime, 1);
      var additionalProperties := map[COMPONENT_NAME_KEY := componentName];
      EngagementBounds(State(), now);
      plugin.TrackMetric(metricData, additionalProperties);
      return Pass;
    }
  }

  /** The outcome of componentWillUnmount: it returned, or it threw. */
  datatype Outcome = Pass | Fail(error: string)

  // ---------------------------------------------------------------------------
  // Clients: whole lifecycles of one wrapped component

  /** Mount, idle checks without activity, unmount: no exception, and trackMetric
      is never called. */
  method NoInteractionScenario(mountAt: int, checkAt: int, unmountAt: int)
    returns (outcome: Outcome, tracked: seq<MetricCall>)
    requires 0 < mountAt <= checkAt <= unmountAt
    ensures outcome == Pass
    ensures tracked == []
  {
    var plugin := new ReactPlugin();
    var wrapping := WithTelemetryTracking(Undefined, HasPrototype("TestComponentButton"), Undefined);
    var component := new TrackedComponent(plugin, wrapping.wrapper);
    component.ComponentDidMount(mountAt);
    component.IdleCheck(checkAt);
    outcome := component.ComponentWillUnmount(unmountAt);
    tracked := plugin.trackedMetrics;
  }

  /** Mount, one user activity, unmount, with an explicit component name:
      exactly one engaged-time metric, sample count 1, tagged with that name
      verbatim, worth the seconds since the activity. */
  method CustomNameScenario(name: string, mountAt: int, activityAt: int, unmountAt: int)
    returns (tracked: seq<MetricCall>)
    requires 0 < mountAt <= activityAt <= unmountAt
    ensures |tracked| == 1
    ensures tracked[0].metric.name == ENGAGED_TIME_METRIC_NAME
    ensures tracked[0].metric.sampleCount == 1
    ensures tracked[0].properties == map[COMPONENT_NAME_KEY := name]
    ensures tracked[0].metric.average == (unmountAt - activityAt) as real / 1000.0
  {
    var plugin := new ReactPlugin();
    var wrapping := WithTelemetryTracking(JsString(name), HasPrototype("TestComponentButton"), Undefined);
    var component := new TrackedComponent(plugin, wrapping.wrapper);
    component.ComponentDidMount(mountAt);
    component.TrackActivity(activityAt);
    var outcome := component.ComponentWillUnmount(unmountAt);
    tracked := plugin.trackedMetrics;
  }

  /** Activity at 1000 ms, an idle check at 6000 ms that opens an idle period,
      activity at 6500 ms, unmount at 7000 ms: the 5500 ms gap is left out and
      0.5 s of engagement is reported under the constructor name. */
  method IdleGapScenario() returns (tracked: seq<MetricCall>)
    ensures tracked == [MetricCall(MetricTelemetry(ENGAGED_TIME_METRIC_NAME, 0.5, 1),
                                   map[COMPONENT_NAME_KEY := "TestComponentButton"])]
  {
    var plugin := new ReactPlugin();
    var wrapping := WithTelemetryTracking(NonString, HasPrototype("TestComponentButton"), Undefined);
    var component := new TrackedComponent(plugin, wrapping.wrapper);
    component.ComponentDidMount(1);
    component.TrackActivity(1000);
    component.IdleCheck(5000);
    component.IdleCheck(6000);
    component.IdleCheck(6100);
    component.TrackActivity(6500);
    var outcome := component.ComponentWillUnmount(7000);
    tracked := plugin.trackedMetrics;
  }

  /** Unmounting a component that was never mounted throws and tracks nothing. */
  method UnmountBeforeMountScenario(unmountAt: int) returns (outcome: Outcome, tracked: seq<MetricCall>)
    requires 0 <= unmountAt
    ensures outcome == Fail(MOUNT_NOT_INITIALIZED)
    ensures tracked == []
  {
    var plugin := new ReactPlugin();
    var wrapping := WithTelemetryTracking(Undefined, HasPrototype("TestComponentButton"), Undefined);
    var component := new TrackedComponent(plugin, wrapping.wrapper);
    outcome := component.ComponentWillUnmount(unmountAt);
    tracked := plugin.trackedMetrics;
  }

  /** Wrapping an arrow-function component without a string name throws at
      wrapping time; with a string name the missing prototype is never read. */
  method ArrowComponentScenario(name: string) returns (unnamed: Wrapping, named: Wrapping)
    ensures unnamed == WrapTypeError
    ensures named == Wrapped(Wrapper(name, ""))
  {
    unnamed := WithTelemetryTracking(Undefined, NoPrototype, Undefined);
    named := WithTelemetryTracking(JsString(name), NoPrototype, Null);
  }
}
