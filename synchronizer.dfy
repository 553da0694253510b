/** The device registry of Client (custom_components/freeathome/fah/pfreeathome.py:197-591):
    the devices discovery created, the map from each monitored datapoint or
    parameter to the device that listens to it, and the routing of update
    documents to those devices. */
module Synchronizer {
  import opened Wrappers
  import opened PyValue
  import opened ConfigXml
  import PyDict
  import opened FahDevice
  import Const
  import FahLight
  import FahCover
  import FahBinarySensor
  import FahThermostat
  import FahLightScene
  import FahSensor
  import FahLock
  import opened Discovery
  import opened Updates

  /** A device object of one of the classes find_devices creates. */
  datatype AnyDevice =
    | LightDevice(light: FahLight.Light)
    | CoverDevice(cover: FahCover.Cover)
    | BinarySensorDevice(binarySensor: FahBinarySensor.BinarySensor)
    | ThermostatDevice(thermostat: FahThermostat.Thermostat)
    | LightSceneDevice(scene: FahLightScene.LightScene)
    | SensorDevice(sensor: FahSensor.Sensor)
    | LockDevice(lock: FahLock.Lock)
  {
    /** The class the object is an instance of. */
    function Kind(): Kind
    {
      match this
      case LightDevice(_) => LightKind
      case CoverDevice(_) => CoverKind
      case BinarySensorDevice(_) => BinarySensorKind
      case ThermostatDevice(_) => ThermostatKind
      case LightSceneDevice(_) => LightSceneKind
      case SensorDevice(_) => SensorKind
      case LockDevice(_) => LockKind
    }

    /** The state every device kind shares. */
    function Base(): Device
    {
      match this
      case LightDevice(l) => l.device
      case CoverDevice(c) => c.device
      case BinarySensorDevice(b) => b.device
      case ThermostatDevice(t) => t.device
      case LightSceneDevice(s) => s.device
      case SensorDevice(s) => s.device
      case LockDevice(l) => l.device
    }

    /** The object holding the kind's own state. */
    function Obj(): object
    {
      match this
      case LightDevice(l) => l
      case CoverDevice(c) => c
      case BinarySensorDevice(b) => b
      case ThermostatDevice(t) => t
      case LightSceneDevice(s) => s
      case SensorDevice(s) => s
      case LockDevice(l) => l
    }
  }

  /** The exception device.update_datapoint(dp, value) raises, if any: only
      a light, a cover and a thermostat parse what they receive. */
  function DeliveryError(d: AnyDevice, dp: string, value: Option<string>): Option<PyError>
  {
    match d
    case LightDevice(l) =>
      if l.TargetOf(dp) in {FahLight.ColorTemp, FahLight.Rgb} && ToInt(OfText(value)).Err?
      then Some(ToInt(OfText(value)).error) else None
    case CoverDevice(c) =>
      if c.TargetOf(dp) in {FahCover.Position, FahCover.TiltPosition} && FahCover.ReportedPosition(value).Err?
      then Some(FahCover.ReportedPosition(value).error) else None
    case ThermostatDevice(t) =>
      if t.TargetOf(dp) == FahThermostat.StatusIndication && FahThermostat.EcoModeOf(value).Err?
      then Some(FahThermostat.EcoModeOf(value).error) else None
    case _ => None
  }

  /** The attributes update_datapoint sets, class by class. */
  datatype DeviceState =
    | LightState(on: Option<bool>, brightness: Value, colorTemp: Value, rgbColor: Value)
    | CoverState(moveState: Option<string>, position: Option<string>, tiltPosition: Option<string>,
                 forcedPosition: Option<string>)
    | BinarySensorState(sensorState: Option<string>, windowPosition: Option<string>)
    | ThermostatState(currentTemperature: Option<string>, currentActuator: Option<string>,
                      targetTemperature: Option<string>, controllerOn: Option<bool>, ecoMode: Option<bool>)
    | LightSceneState(sceneState: Option<string>)
    | SensorState(measured: Option<string>)
    | LockState(lockState: Option<string>)

  /** The state a device object holds now. */
  function StateOf(d: AnyDevice): (s: DeviceState)
    reads d.Obj()
    ensures Fits(d, s)
  {
    match d
    case LightDevice(l) => LightState(l.state, l.brightness, l.colorTemp, l.rgbColor)
    case CoverDevice(c) => CoverState(c.state, c.position, c.tiltPosition, c.forcedPosition)
    case BinarySensorDevice(b) => BinarySensorState(b.state, b.windowPosition)
    case ThermostatDevice(t) =>
      ThermostatState(t.currentTemperature, t.currentActuator, t.targetTemperature, t.state, t.ecoMode)
    case LightSceneDevice(s) => LightSceneState(s.state)
    case SensorDevice(s) => SensorState(s.state)
    case LockDevice(l) => LockState(l.state)
  }

  /** s is a state of the device's class. */
  predicate Fits(d: AnyDevice, s: DeviceState)
  {
    match d
    case LightDevice(_) => s.LightState?
    case CoverDevice(_) => s.CoverState?
    case BinarySensorDevice(_) => s.BinarySensorState?
    case ThermostatDevice(_) => s.ThermostatState?
    case LightSceneDevice(_) => s.LightSceneState?
    case SensorDevice(_) => s.SensorState?
    case LockDevice(_) => s.LockState?
  }

  /** The state after update_datapoint(dp, value), class by class: the
      attribute the datapoint is the source of takes the value, parsed
      where the class parses it; a value that does not parse leaves the
      state as it was. */
  function AfterDatapoint(d: AnyDevice, s: DeviceState, dp: string, value: Option<string>): (r: DeviceState)
    ensures Fits(d, s) ==> Fits(d, r)
  {
    match d
    case LightDevice(l) =>
      if !s.LightState? then s
      else
        var t, n := l.TargetOf(dp), ToInt(OfText(value));
        LightState(if t == FahLight.OnOff then Some(value == Some("1")) else s.on,
                   if t == FahLight.Brightness then OfText(value) else s.brightness,
                   if t == FahLight.ColorTemp && n.Ok? then Int(n.value) else s.colorTemp,
                   if t == FahLight.Rgb && n.Ok? then Int(n.value) else s.rgbColor)
    case CoverDevice(c) =>
      if !s.CoverState? then s
      else
        var t, p := c.TargetOf(dp), FahCover.ReportedPosition(value);
        CoverState(if t == FahCover.MoveState then value else s.moveState,
                   if t == FahCover.Position && p.Ok? then Some(p.value) else s.position,
                   if t == FahCover.TiltPosition && p.Ok? then Some(p.value) else s.tiltPosition,
                   if t == FahCover.ForcedPosition then value else s.forcedPosition)
    case BinarySensorDevice(b) =>
      if !s.BinarySensorState? then s
      else if b.device.Dp(Const.PID_WINDOW_DOOR_POSITION) == Some(dp) then s.(windowPosition := value)
      else s.(sensorState := Some(if value == Some("0") then "0" else "1"))
    case ThermostatDevice(th) =>
      if !s.ThermostatState? then s
      else
        var t, e := th.TargetOf(dp), FahThermostat.EcoModeOf(value);
        ThermostatState(if t == FahThermostat.MeasuredTemperature then value else s.currentTemperature,
                        if t == FahThermostat.HeatingDemand then value else s.currentActuator,
                        if t == FahThermostat.SetValue then value else s.targetTemperature,
                        if t == FahThermostat.ControllerOnOff then Some(value == Some("1")) else s.controllerOn,
                        if t == FahThermostat.StatusIndication && e.Ok? then Some(e.value) else s.ecoMode)
    case LightSceneDevice(sc) =>
      if sc.device.Dp(Const.PID_SCENE_CONTROL) == Some(dp) then LightSceneState(value) else s
    case SensorDevice(se) =>
      if se.Measures(dp) then SensorState(value) else s
    case LockDevice(l) =>
      if l.device.Dp(Const.PID_INFO_LOCK_UNLOCK) == Some(dp) then LockState(value) else s
  }

  /** A delivery that raises leaves the device's state as it was. */
  lemma RaisingDeliveryChangesNothing(d: AnyDevice, s: DeviceState, dp: string, value: Option<string>)
    requires Fits(d, s) && DeliveryError(d, dp, value).Some?
    ensures AfterDatapoint(d, s, dp, value) == s
  {
  }

  /** device.update_datapoint(dp, value), for whichever class the device is. */
  method Deliver(d: AnyDevice, dp: string, value: Option<string>) returns (r: Outcome<PyError>)
    modifies d.Obj()
    ensures r.Fail? <==> DeliveryError(d, dp, value).Some?
    ensures r.Fail? ==> r.error == DeliveryError(d, dp, value).value
    ensures StateOf(d) == AfterDatapoint(d, old(StateOf(d)), dp, value)
  {
    match d
    case LightDevice(l) =>
      r := l.UpdateDatapoint(dp, value);
    case CoverDevice(c) =>
      r := c.UpdateDatapoint(dp, value);
    case BinarySensorDevice(b) =>
      b.UpdateDatapoint(dp, value);
      r := Pass;
    case ThermostatDevice(t) =>
      r := t.UpdateDatapoint(dp, value);
    case LightSceneDevice(s) =>
      s.UpdateDatapoint(dp, value);
      r := Pass;
    case SensorDevice(s) =>
      s.UpdateDatapoint(dp, value);
      r := Pass;
    case LockDevice(l) =>
      l.UpdateDatapoint(dp, value);
      r := Pass;
  }

  /** A monitor map after the ids of one dict were registered, and the
      exception that stopped the registering, if one did. */
  datatype Watched = Watched(m: map<string, AnyDevice>, error: Option<PyError>)

  /** The loop of add_device over datapoints.values() (or parameters.values()):
      an id starting with 'i' names an input and is not monitored, every
      other id maps prefix + id to dev, and an empty id raises an IndexError
      at id[0], keeping what was registered before it. */
  function Watch(m: map<string, AnyDevice>, prefix: string, ids: seq<string>, dev: AnyDevice): (r: Watched)
    ensures r.error.Some? <==> "" in ids
    ensures r.error.Some? ==> r.error.value == IndexError
  {
    if ids == [] then Watched(m, None)
    else
      var w := Watch(m, prefix, ids[..|ids| - 1], dev);
      var id := ids[|ids| - 1];
      assert forall x :: x in ids ==> x == id || x in ids[..|ids| - 1];
      if w.error.Some? then w
      else if id == "" then Watched(w.m, Some(IndexError))
      else if id[0] == 'i' then w
      else Watched(w.m[prefix + id := dev], None)
  }

  /** Registering only adds keys, and every key either maps to dev or keeps
      its device; a key that no id names keeps its device. */
  lemma {:induction false} WatchKeeps(m: map<string, AnyDevice>, prefix: string, ids: seq<string>, dev: AnyDevice)
    ensures var r := Watch(m, prefix, ids, dev);
            (forall k :: k in m ==> k in r.m)
            && (forall k :: k in r.m ==> r.m[k] == dev || (k in m && r.m[k] == m[k]))
            && (forall k :: k in m && (forall id :: id in ids ==> k != prefix + id) ==> r.m[k] == m[k])
  {
    if ids != [] {
      WatchKeeps(m, prefix, ids[..|ids| - 1], dev);
      assert forall x :: x in ids[..|ids| - 1] ==> x in ids;
    }
  }

  /** Every key registering adds is prefix + id for a non-empty id that does
      not start with 'i'. */
  lemma {:induction false} WatchAddsOnlyOutputs(m: map<string, AnyDevice>, prefix: string, ids: seq<string>, dev: AnyDevice)
    ensures var r := Watch(m, prefix, ids, dev);
            forall k :: k in r.m && k !in m ==> exists id :: id in ids && id != "" && id[0] != 'i' && k == prefix + id
  {
    if ids != [] {
      WatchAddsOnlyOutputs(m, prefix, ids[..|ids| - 1], dev);
      assert forall x :: x in ids[..|ids| - 1] ==> x in ids;
    }
  }

  /** A run without an error maps prefix + id to dev for every id that does
      not start with 'i'. */
  lemma {:induction false} WatchCoversOutputs(m: map<string, AnyDevice>, prefix: string, ids: seq<string>, dev: AnyDevice)
    ensures var r := Watch(m, prefix, ids, dev);
            r.error.None? ==> forall id :: id in ids && id[0] != 'i' ==> prefix + id in r.m && r.m[prefix + id] == dev
  {
    if ids != [] {
      WatchCoversOutputs(m, prefix, ids[..|ids| - 1], dev);
      assert forall x :: x in ids ==> x == ids[|ids| - 1] || x in ids[..|ids| - 1];
    }
  }

  /** serialnumber + '/' + channel_id + '/', the start of every key a
      device is monitored under. */
  function KeyPrefix(a: DeviceArgs): string
  {
    LookupKey(a.serialnumber, a.channelId) + "/"
  }

  /** One delivery update_devices makes: the report and the device whose
      monitor map holds its key. */
  datatype Route = Route(device: AnyDevice, report: Report)

  /** The device monitoring a report's key, in the map for its kind of
      element. */
  function Monitor(dm: map<string, AnyDevice>, pm: map<string, AnyDevice>, rep: Report): Option<AnyDevice>
  {
    var m := if rep.isParameter then pm else dm;
    if rep.key in m then Some(m[rep.key]) else None
  }

  /** The deliveries for a sequence of reports, in order: one per report
      whose key is monitored. */
  function Routes(reps: seq<Report>, dm: map<string, AnyDevice>, pm: map<string, AnyDevice>): (r: seq<Route>)
    ensures forall x :: x in r ==> x.report in reps && Monitor(dm, pm, x.report) == Some(x.device)
    ensures forall rep :: rep in reps && Monitor(dm, pm, rep).Some? ==> Route(Monitor(dm, pm, rep).value, rep) in r
    ensures |r| <= |reps|
  {
    if reps == [] then []
    else
      var rest := Routes(reps[1..], dm, pm);
      assert forall x :: x in reps[1..] ==> x in reps;
      assert forall x :: x in reps ==> x == reps[0] || x in reps[1..];
      var own := Monitor(dm, pm, reps[0]);
      if own.Some? then [Route(own.value, reps[0])] + rest else rest
  }

  /** The devices a sequence of deliveries reached. */
  function Reached(routes: seq<Route>): (r: set<AnyDevice>)
    ensures forall x :: x in routes ==> x.device in r
    ensures forall d :: d in r ==> exists x :: x in routes && x.device == d
  {
    set x | x in routes :: x.device
  }

  /** Whether the device's class defines update_parameter. The light, cover,
      binary-sensor and sensor classes do, and only log; the thermostat,
      scene and lock classes do not, and neither does FahDevice. */
  predicate HasUpdateParameter(d: AnyDevice)
  {
    d.LightDevice? || d.CoverDevice? || d.BinarySensorDevice? || d.SensorDevice?
  }

  /** What a delivery raises: a parameter report goes to update_parameter,
      an AttributeError for a class without one; a datapoint report goes
      to update_datapoint. */
  function Rejected(x: Route): Option<PyError>
  {
    if x.report.isParameter then (if HasUpdateParameter(x.device) then None else Some(AttributeError))
    else DeliveryError(x.device, x.report.id, x.report.value)
  }

  /** The state of d after the deliveries of routes, in order, from s: the
      datapoint reports routed to d apply one after the other; parameter
      reports and reports routed elsewhere change nothing of d. */
  function Replay(d: AnyDevice, s: DeviceState, routes: seq<Route>): (r: DeviceState)
    ensures Fits(d, s) ==> Fits(d, r)
  {
    if routes == [] then s
    else
      var x := routes[|routes| - 1];
      var before := Replay(d, s, routes[..|routes| - 1]);
      if x.device == d && !x.report.isParameter then AfterDatapoint(d, before, x.report.id, x.report.value)
      else before
  }

  /** Deliveries to other devices do not change d's replayed state. */
  lemma {:induction false} ReplayOthers(d: AnyDevice, s: DeviceState, routes: seq<Route>)
    requires forall x :: x in routes ==> x.device != d
    ensures Replay(d, s, routes) == s
  {
    if routes != [] {
      assert forall x :: x in routes[..|routes| - 1] ==> x in routes;
      ReplayOthers(d, s, routes[..|routes| - 1]);
    }
  }

  /** A single datapoint report routed to d gives the state update_datapoint
      promises, whatever else was delivered to other devices around it. */
  lemma SingleReport(d: AnyDevice, s: DeviceState, before: seq<Route>, rep: Report, after: seq<Route>)
    requires !rep.isParameter
    requires forall x :: x in before + after ==> x.device != d
    ensures Replay(d, s, before + [Route(d, rep)] + after) == AfterDatapoint(d, s, rep.id, rep.value)
  {
    var all := before + [Route(d, rep)] + after;
    ReplayThen(d, s, before + [Route(d, rep)], after);
    assert (before + [Route(d, rep)])[..|before|] == before;
    ReplayOthers(d, s, before);
  }

  /** Replaying more deliveries continues from where the first ones left
      off, when none of the later ones is routed to d. */
  lemma {:induction false} ReplayThen(d: AnyDevice, s: DeviceState, first: seq<Route>, later: seq<Route>)
    requires forall x :: x in later ==> x.device != d
    ensures Replay(d, s, first + later) == Replay(d, s, first)
  {
    if later != [] {
      assert (first + later)[..|first + later| - 1] == first + later[..|later| - 1];
      assert forall x :: x in later[..|later| - 1] ==> x in later;
      assert later[|later| - 1] in later;
      ReplayThen(d, s, first, later[..|later| - 1]);
    } else {
      assert first + later == first;
    }
  }

  /** d is the device discovery asked for in c. */
  ghost predicate Built(d: AnyDevice, c: Creation)
  {
    d.Kind() == c.kind && d.Base().serialnumber == c.args.serialnumber && d.Base().channelId == c.args.channelId
    && d.Base().datapoints == c.args.datapoints && d.Base().parameters == c.args.parameters
  }

  /** How a run of deliveries ended: `delivered` is a prefix of `routes`
      of which only the last may raise; it raised r's exception, or every
      delivery passed and r is the exception that ended the reading, if
      one did. */
  ghost predicate Stopped(routes: seq<Route>, delivered: seq<Route>, readError: Option<PyError>, r: Outcome<PyError>)
  {
    |delivered| <= |routes| && delivered == routes[..|delivered|]
    && (forall i :: 0 <= i < |delivered| - 1 ==> Rejected(delivered[i]).None?)
    && (r.Pass? ==> delivered == routes && readError.None? && forall x :: x in routes ==> Rejected(x).None?)
    && (r.Fail? ==> (delivered != [] && Rejected(delivered[|delivered| - 1]) == Some(r.error))
                    || (delivered == routes && readError == Some(r.error) && forall x :: x in routes ==> Rejected(x).None?))
  }

  /** A device's own object is never a base object. */
  lemma ObjIsNotBase(d: AnyDevice, b: Device)
    ensures d.Obj() != b
  {
  }

  /** A device whose object is unchanged keeps its state. */
  twostate lemma StateKept(d: AnyDevice)
    requires old(allocated(d.Obj())) && unchanged(d.Obj())
    ensures StateOf(d) == old(StateOf(d))
  {
  }

  /** Distinct devices have distinct objects. */
  lemma ObjInjective(d: AnyDevice, e: AnyDevice)
    requires d != e
    ensures d.Obj() != e.Obj()
  {
  }

  /** The delivery loop of update_devices: each datapoint report goes to
      its device's update_datapoint, a parameter report to update_parameter,
      until one raises. Every device of devs ends in the state its routed
      reports give, in order, the one that raised included. */
  method DeliverAll(routes: seq<Route>, ghost devs: set<AnyDevice>)
    returns (r: Outcome<PyError>, ghost delivered: seq<Route>)
    modifies set x | x in routes :: x.device.Obj()
    ensures Stopped(routes, delivered, None, r)
    ensures forall d :: d in devs ==>
              d.Base().callbacks == old(d.Base().callbacks) && d.Base().commands == old(d.Base().commands)
              && d.Base().invoked == old(d.Base().invoked)
    ensures forall d :: d in devs ==> StateOf(d) == Replay(d, old(StateOf(d)), delivered)
  {
    hide DeliveryError, AfterDatapoint;
    delivered := [];
    r := Pass;
    var i := 0;
    while i < |routes|
      invariant 0 <= i <= |routes|
      invariant delivered == routes[..i] && r.Pass?
      invariant forall j :: 0 <= j < i ==> Rejected(routes[j]).None?
      invariant forall d :: d in devs ==>
                  d.Base().callbacks == old(d.Base().callbacks) && d.Base().commands == old(d.Base().commands)
                  && d.Base().invoked == old(d.Base().invoked)
      invariant forall d :: d in devs ==> StateOf(d) == Replay(d, old(StateOf(d)), delivered)
    {
      var x := routes[i];
      assert x in routes;
      ghost var prior := delivered;
      delivered := delivered + [x];
      assert delivered[..|delivered| - 1] == prior;
      if x.report.isParameter {
        if !HasUpdateParameter(x.device) {
          r := Fail(AttributeError);
          assert delivered == routes[..i + 1] && delivered[|delivered| - 1] == x;
          return;
        }
      } else {
        forall d | d in devs
          ensures d.Base() != x.device.Obj()
        {
          ObjIsNotBase(x.device, d.Base());
        }
        label before:
        r := Deliver(x.device, x.report.id, x.report.value);
        forall d | d in devs
          ensures StateOf(d) == Replay(d, old(StateOf(d)), delivered)
        {
          if d != x.device {
            ObjInjective(d, x.device);
            assert StateOf(d) == old@before(StateOf(d));
          }
        }
        if r.Fail? {
          assert delivered == routes[..i + 1] && delivered[|delivered| - 1] == x;
          return;
        }
      }
      i := i + 1;
    }
    assert delivered == routes;
  }

  /** made[k] is the device built for cs[k]. */
  ghost predicate BuiltInOrder(made: seq<AnyDevice>, cs: seq<Creation>)
  {
    |made| <= |cs| && forall k :: 0 <= k < |made| ==> Built(made[k], cs[k])
  }

  /** The positional arguments add_device passes towards FahDevice.__init__
      (pfreeathome.py:564-571): FahLight and FahSensor forward the same four
      to it, and FahCover and FahBinarySensor inherit it unchanged. */
  function AddDeviceArgsAsWritten(a: DeviceArgs): (args: seq<Arg>)
    ensures |args| == 4 && args[3] == Text(a.name)
  {
    [Info(a.deviceInfo), Text(a.serialnumber), Text(a.channelId), Text(a.name)]
  }

  /** As written, the display name binds to function_id and name is left
      without a value, so every add_device call raises a TypeError. */
  lemma AddDeviceAsWrittenRaises(a: DeviceArgs)
    ensures BindInit(AddDeviceArgsAsWritten(a)) == Err(TypeError)
  {
  }

  /** The arguments as add_device evidently means to pass them: the
      function id in its place, so that the display name binds to name. */
  function AddDeviceArgs(a: DeviceArgs): (args: seq<Arg>)
    ensures |args| == 5
  {
    [Info(a.deviceInfo), Text(a.serialnumber), Text(a.channelId), FunctionId(a.functionId), Text(a.name)]
  }

  /** With the function id passed, every parameter binds to its own
      argument and the display name becomes the device's name. */
  lemma AddDeviceBindsName(a: DeviceArgs)
    ensures BindInit(AddDeviceArgs(a)).Ok?
    ensures BindInit(AddDeviceArgs(a)).value.name == Text(a.name)
    ensures BindInit(AddDeviceArgs(a)).value.functionId == FunctionId(a.functionId)
  {
  }

  /** The type names get_devices knows, and the class each one selects. */
  function KindOfType(deviceType: string): (r: Option<Kind>)
  {
    match deviceType
    case "light" => Some(LightKind)
    case "scene" => Some(LightSceneKind)
    case "cover" => Some(CoverKind)
    case "binary_sensor" => Some(BinarySensorKind)
    case "thermostat" => Some(ThermostatKind)
    case "sensor" => Some(SensorKind)
    case "lock" => Some(LockKind)
    case _ => None
  }

  /** The name get_devices gives each class. */
  function TypeName(k: Kind): (r: string)
    ensures KindOfType(r) == Some(k)
  {
    match k
    case LightKind => "light"
    case LightSceneKind => "scene"
    case CoverKind => "cover"
    case BinarySensorKind => "binary_sensor"
    case ThermostatKind => "thermostat"
    case SensorKind => "sensor"
    case LockKind => "lock"
  }

  /** Every type name get_devices knows is the name of exactly one class. */
  lemma KindOfTypeInverse(deviceType: string)
    ensures KindOfType(deviceType).Some? ==> TypeName(KindOfType(deviceType).value) == deviceType
  {
  }

  /** The object add_device builds, as the class it names. */
  method Create(k: Kind, a: DeviceArgs) returns (d: AnyDevice)
    ensures fresh(d.Obj()) && fresh(d.Base())
    ensures d.Kind() == k
    ensures d.Base().serialnumber == a.serialnumber && d.Base().channelId == a.channelId
    ensures d.Base().datapoints == a.datapoints && d.Base().parameters == a.parameters
    ensures d.Base().invoked == [] && d.Base().commands == []
    ensures d.Base().functionId == a.functionId && d.Base().deviceInfo == a.deviceInfo
    ensures k != SensorKind ==> d.Base().name == a.name
  {
    match k
    case LightKind =>
      var l := new FahLight.Light(a);
      d := LightDevice(l);
    case CoverKind =>
      var c := new FahCover.Cover(a);
      d := CoverDevice(c);
    case BinarySensorKind =>
      var b := new FahBinarySensor.BinarySensor(a);
      d := BinarySensorDevice(b);
    case ThermostatKind =>
      var t := new FahThermostat.Thermostat(a);
      d := ThermostatDevice(t);
    case LightSceneKind =>
      var s := new FahLightScene.LightScene(a);
      d := LightSceneDevice(s);
    case SensorKind =>
      var s := new FahSensor.Sensor(a);
      d := SensorDevice(s);
    case LockKind =>
      var l := new FahLock.Lock(a);
      d := LockDevice(l);
  }

  class Client {
    var foundDevices: bool
    var useRoomNames: bool
    var devices: set<AnyDevice>
    /** serialnumber/channel/datapoint -> the device listening to it. */
    var monitoredDatapoints: map<string, AnyDevice>
    /** serialnumber/channel/parameter -> the device listening to it. */
    var monitoredParameters: map<string, AnyDevice>

    /** Every monitored key belongs to a registered device, and no two
        registered devices share their base object. */
    ghost predicate Valid()
      reads this
    {
      (forall k :: k in monitoredDatapoints ==> monitoredDatapoints[k] in devices)
      && (forall k :: k in monitoredParameters ==> monitoredParameters[k] in devices)
      && (forall d, e :: d in devices && e in devices && d.Base() == e.Base() ==> d == e)
    }

    constructor()
      ensures Valid()
      ensures devices == {} && monitoredDatapoints == map[] && monitoredParameters == map[]
      ensures !foundDevices && !useRoomNames
    {
      foundDevices, useRoomNames := false, false;
      devices, monitoredDatapoints, monitoredParameters := {}, map[], map[];
    }

    /** The objects update_devices may change. */
    ghost function DeviceObjects(): set<object>
      reads this
    {
      (set d | d in devices :: d.Obj()) + (set d | d in devices :: d.Base())
    }

    /** filter_devices / get_devices: the registered devices of the class a
        type name selects; an unknown name selects nothing. */
    function GetDevices(deviceType: string): (r: set<AnyDevice>)
      reads this
      ensures r <= devices
      ensures forall d :: d in r ==> KindOfType(deviceType) == Some(d.Kind())
      ensures forall d :: d in devices && KindOfType(deviceType) == Some(d.Kind()) ==> d in r
    {
      if KindOfType(deviceType).None? then {}
      else set d | d in devices && d.Kind() == KindOfType(deviceType).value
    }

    /** update_devices: the reports of the document go, in document order,
        to the devices monitoring their keys, and every registered device
        ends in the state its delivered datapoint reports give, in order (a
        parameter report changes no state but still marks its device as
        updated, or raises an AttributeError for a class without
        update_parameter); the first exception, raised by a device or by
        reading the document, ends the update before any after_update runs;
        otherwise every device reached runs its callbacks once. `delivered`
        is the sequence of deliveries made. */
    method UpdateDevices(root: Node) returns (r: Outcome<PyError>, ghost routes: seq<Route>, ghost delivered: seq<Route>)
      requires Valid()
      modifies DeviceObjects()
      ensures forall d :: d in devices ==>
                d.Base().callbacks == old(d.Base().callbacks) && d.Base().commands == old(d.Base().commands)
                && d.Base().invoked == old(d.Base().invoked) + (if r.Pass? && d in Reached(routes) then d.Base().callbacks else [])
      ensures routes == Routes(Read(root).reports, monitoredDatapoints, monitoredParameters)
      ensures Stopped(routes, delivered, Read(root).error, r)
      ensures forall d :: d in old(devices) ==> StateOf(d) == Replay(d, old(StateOf(d)), delivered)
    {
      hide Read, Rejected, DeliveryError, AfterDatapoint, Replay, StateOf, AnyDevice.Obj, AnyDevice.Base;
      var reading := Read(root);
      var rs := Routes(reading.reports, monitoredDatapoints, monitoredParameters);
      routes := rs;
      assert forall x :: x in rs ==> x.device in devices;
      var reached := Reached(rs);
      assert reached <= devices;
      NotADeviceObject();
      hide Valid;
      r, delivered := DeliverAll(rs, devices);
      if r.Fail? || reading.error.Some? {
        if r.Pass? {
          r := Fail(reading.error.value);
        }
        return;
      }
      hide Stopped;
      RunAfterUpdate(reached);
    }

    /** The after_update loop over the devices reached, in no particular
        order: each runs its callbacks once, and nothing else changes, the
        state of every device included. */
    method RunAfterUpdate(updated: set<AnyDevice>)
      requires Valid() && updated <= devices
      modifies set d | d in updated :: d.Base()
      ensures forall d :: d in devices ==>
                d.Base().callbacks == old(d.Base().callbacks) && d.Base().commands == old(d.Base().commands)
                && d.Base().invoked == old(d.Base().invoked) + (if d in updated then d.Base().callbacks else [])
      ensures forall d :: d in devices ==> StateOf(d) == old(StateOf(d))
    {
      hide AnyDevice.Base, AnyDevice.Obj, StateOf;
      var pending := updated;
      ghost var done: set<AnyDevice> := {};
      while pending != {}
        invariant pending <= updated && done == updated - pending
        invariant devices == old(devices) && Valid()
        invariant forall d :: d in devices ==>
                    d.Base().callbacks == old(d.Base().callbacks) && d.Base().commands == old(d.Base().commands)
                    && d.Base().invoked == old(d.Base().invoked) + (if d in done then d.Base().callbacks else [])
        decreases |pending|
      {
        var d :| d in pending;
        label before:
        d.Base().AfterUpdate();
        forall e | e in devices && e != d
          ensures e.Base().invoked == old@before(e.Base().invoked) && e.Base().callbacks == old@before(e.Base().callbacks)
          ensures e.Base().commands == old@before(e.Base().commands)
        {
          assert e.Base() != d.Base();
        }
        pending := pending - {d};
        done := done + {d};
      }
      forall d | d in devices
        ensures StateOf(d) == old(StateOf(d))
      {
        forall e | e in updated
          ensures d.Obj() != e.Base()
        {
          ObjIsNotBase(d, e.Base());
        }
        StateKept(d);
      }
    }

    /** The client is none of the objects its devices are made of. */
    lemma NotADeviceObject()
      ensures this !in DeviceObjects()
    {
    }

    /** find_devices: with a configuration, every device the plan lists is
        added in order, then the exception that ended the plan, if any, is
        raised, and otherwise the configuration is applied as a first
        update; without one (the RPC failed) nothing changes. */
    method FindDevices(config: Option<Node>, env: Env) returns (r: Outcome<PyError>, ghost made: seq<AnyDevice>)
      requires Valid()
      modifies this, DeviceObjects()
      ensures Valid()
      ensures useRoomNames == env.useRoomNames
      ensures devices == old(devices) + set d | d in made
      ensures config.None? ==> r == Pass && made == [] && foundDevices == old(foundDevices)
                               && monitoredDatapoints == old(monitoredDatapoints) && monitoredParameters == old(monitoredParameters)
      ensures config.Some? ==> foundDevices && BuiltInOrder(made, Plan(config.value, env).creations)
      ensures forall k :: 0 <= k < |made| ==> made[k] !in old(devices) && fresh(made[k].Obj()) && fresh(made[k].Base())
      ensures config.Some? && r.Pass? ==> Plan(config.value, env).error.None? && |made| == |Plan(config.value, env).creations|
      ensures config.Some? && Plan(config.value, env).error.Some? ==> r.Fail?
    {
      hide Plan, Read, Routes, Watch, Stopped, Reached, Rejected, DeliveryError, AnyDevice.Obj, AnyDevice.Base;
      made := [];
      useRoomNames := env.useRoomNames;
      if config.None? {
        return Pass, made;
      }
      foundDevices := true;
      var plan := Plan(config.value, env);
      r, made := AddAll(plan.creations);
      if r.Fail? {
        return;
      }
      if plan.error.Some? {
        return Fail(plan.error.value), made;
      }
      NotADeviceObject();
      ghost var routes, delivered;
      r, routes, delivered := UpdateDevices(config.value);
    }

    /** add_device, with the device built from the arguments discovery
        resolved: it is registered first, then monitored under every output
        datapoint id and then every parameter id; an empty id raises an
        IndexError and leaves the registrations made before it. */
    method AddDevice(k: Kind, a: DeviceArgs) returns (r: Outcome<PyError>, dev: AnyDevice)
      requires Valid()
      modifies this
      ensures Valid()
      ensures fresh(dev.Obj()) && fresh(dev.Base()) && dev.Kind() == k
      ensures dev.Base().serialnumber == a.serialnumber && dev.Base().channelId == a.channelId
      ensures dev.Base().datapoints == a.datapoints && dev.Base().parameters == a.parameters
      ensures dev.Base().invoked == [] && dev.Base().commands == []
      ensures dev.Base().functionId == a.functionId && (k != SensorKind ==> dev.Base().name == a.name)
      ensures devices == old(devices) + {dev}
      ensures foundDevices == old(foundDevices) && useRoomNames == old(useRoomNames)
      ensures var wd := Watch(old(monitoredDatapoints), KeyPrefix(a), PyDict.Values(a.datapoints), dev);
              monitoredDatapoints == wd.m
              && (wd.error.Some? ==> r == Fail(IndexError) && monitoredParameters == old(monitoredParameters))
      ensures var wd := Watch(old(monitoredDatapoints), KeyPrefix(a), PyDict.Values(a.datapoints), dev);
              var wp := Watch(old(monitoredParameters), KeyPrefix(a), PyDict.Values(a.parameters), dev);
              wd.error.None? ==> monitoredParameters == wp.m && (r.Fail? <==> wp.error.Some?) && (r.Fail? ==> r.error == IndexError)
    {
      hide Watch;
      dev := Create(k, a);
      devices := devices + {dev};
      var prefix := KeyPrefix(a);
      var m;
      r, m := WatchAll(monitoredDatapoints, prefix, PyDict.Values(a.datapoints), dev);
      WatchKeepsIn(monitoredDatapoints, prefix, PyDict.Values(a.datapoints), dev, devices);
      monitoredDatapoints := m;
      if r.Fail? {
        return;
      }
      r, m := WatchAll(monitoredParameters, prefix, PyDict.Values(a.parameters), dev);
      WatchKeepsIn(monitoredParameters, prefix, PyDict.Values(a.parameters), dev, devices);
      monitoredParameters := m;
    }

    /** add_device for one device of the plan, with only what find_devices
        relies on stated. */
    method AddCreation(c: Creation) returns (r: Outcome<PyError>, dev: AnyDevice)
      requires Valid()
      modifies this
      ensures Valid()
      ensures devices == old(devices) + {dev} && fresh(dev.Obj()) && fresh(dev.Base()) && Built(dev, c)
      ensures foundDevices == old(foundDevices) && useRoomNames == old(useRoomNames)
      ensures r.Fail? ==> r.error == IndexError
    {
      r, dev := AddDevice(c.kind, c.args);
    }

    /** The add_device calls of find_devices, in order, up to the first
        that raises. */
    method AddAll(cs: seq<Creation>) returns (r: Outcome<PyError>, ghost made: seq<AnyDevice>)
      requires Valid()
      modifies this
      ensures Valid()
      ensures foundDevices == old(foundDevices) && useRoomNames == old(useRoomNames)
      ensures devices == old(devices) + set d | d in made
      ensures BuiltInOrder(made, cs) && (r.Pass? ==> |made| == |cs|)
      ensures forall k :: 0 <= k < |made| ==> made[k] !in old(devices) && fresh(made[k].Obj()) && fresh(made[k].Base())
      ensures r.Fail? ==> r.error == IndexError
    {
      r := Pass;
      made := [];
      var i := 0;
      while i < |cs|
        invariant 0 <= i <= |cs| && |made| == i
        invariant Valid() && r.Pass?
        invariant foundDevices == old(foundDevices) && useRoomNames == old(useRoomNames)
        invariant devices == old(devices) + set d | d in made
        invariant BuiltInOrder(made, cs)
        invariant forall k :: 0 <= k < |made| ==> made[k] !in old(devices) && fresh(made[k].Obj()) && fresh(made[k].Base())
      {
        var dev;
        r, dev := AddCreation(cs[i]);
        assert dev !in old(devices);
        assert (set d | d in made + [dev]) == (set d | d in made) + {dev};
        made := made + [dev];
        if r.Fail? {
          return;
        }
        i := i + 1;
      }
    }
  }

  /** One of the two registering loops of add_device, on the monitor map
      it updates. */
  method WatchAll(m0: map<string, AnyDevice>, prefix: string, ids: seq<string>, dev: AnyDevice)
    returns (r: Outcome<PyError>, m: map<string, AnyDevice>)
    ensures Watch(m0, prefix, ids, dev) == Watched(m, if r.Fail? then Some(r.error) else None)
  {
    m := m0;
    r := Pass;
    var i := 0;
    while i < |ids|
      invariant 0 <= i <= |ids|
      invariant Watch(m0, prefix, ids[..i], dev) == Watched(m, None)
    {
      assert ids[..i + 1][..i] == ids[..i];
      var id := ids[i];
      if id == "" {
        r := Fail(IndexError);
        break;
      }
      if id[0] != 'i' {
        m := m[prefix + id := dev];
      }
      i := i + 1;
    }
    if r.Pass? {
      assert ids[..i] == ids;
    } else {
      assert ids[..i + 1][..i] == ids[..i];
      assert Watch(m0, prefix, ids[..i + 1], dev) == Watched(m, Some(IndexError));
      WatchStops(m0, prefix, ids, i + 1, dev);
    }
  }

  /** Registering keeps every monitored device among the registered ones. */
  lemma WatchKeepsIn(m: map<string, AnyDevice>, prefix: string, ids: seq<string>, dev: AnyDevice, s: set<AnyDevice>)
    requires (forall k :: k in m ==> m[k] in s) && dev in s
    ensures forall k :: k in Watch(m, prefix, ids, dev).m ==> Watch(m, prefix, ids, dev).m[k] in s
  {
    WatchKeeps(m, prefix, ids, dev);
  }

  /** Once registering stopped, the ids after it change nothing. */
  lemma {:induction false} WatchStops(m: map<string, AnyDevice>, prefix: string, ids: seq<string>, n: nat, dev: AnyDevice)
    requires n <= |ids| && Watch(m, prefix, ids[..n], dev).error.Some?
    ensures Watch(m, prefix, ids, dev) == Watch(m, prefix, ids[..n], dev)
    decreases |ids| - n
  {
    if n < |ids| {
      assert ids[..n + 1][..n] == ids[..n];
      WatchStops(m, prefix, ids, n + 1, dev);
    } else {
      assert ids[..n] == ids;
    }
  }
}
