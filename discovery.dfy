/** What Client.find_devices decides from the configuration document
    (custom_components/freeathome/fah/pfreeathome.py:616-785): which device
    of which class to create for each channel, with which name, datapoints
    and parameters, and the exception, if any, that ends the search. The
    devices are then added by `Synchronizer.Client.FindDevices`. */
module Discovery {
  import opened Wrappers
  import opened PyValue
  import opened PyBits
  import opened ConfigXml
  import opened Pairing
  import PyDict
  import opened Const
  import opened FahDevice
  import FahLight
  import FahCover
  import FahBinarySensor
  import FahThermostat
  import FahLightScene
  import FahSensor
  import FahLock

  /** The device classes find_devices asks, in the order it asks them. */
  datatype Kind = LightKind | CoverKind | BinarySensorKind | ThermostatKind | LightSceneKind | SensorKind | LockKind

  const KINDS: seq<Kind> := [LightKind, CoverKind, BinarySensorKind, ThermostatKind, LightSceneKind, SensorKind, LockKind]

  /** fah_class.pairing_ids(function_id); a light is asked without
      switch_as_x. */
  function KindPairingIds(k: Kind, functionId: Option<int>): Option<PairingIds>
  {
    match k
    case LightKind => FahLight.PairingIdsFor(functionId, false)
    case CoverKind => FahCover.PairingIdsFor(functionId)
    case BinarySensorKind => FahBinarySensor.PairingIdsFor(functionId)
    case ThermostatKind => FahThermostat.PairingIdsFor(functionId)
    case LightSceneKind => FahLightScene.PairingIdsFor(functionId)
    case SensorKind => FahSensor.PairingIdsFor(functionId)
    case LockKind => FahLock.PairingIdsFor(functionId)
  }

  /** The {"inputs": ..., "outputs": ...} dict pairing_ids returns. */
  function AsRequest(p: PairingIds): Request
  {
    [("inputs", p.inputs), ("outputs", p.outputs)]
  }

  /** What find_devices takes besides the device tree: the SysAP's host,
      the results of get_names and get_room_names, the use_room_names flag,
      and the parameter ids asked of a thermostat. */
  datatype Env = Env(host: string, names: map<string, string>, roomnames: map<string, map<string, string>>,
                     useRoomNames: bool, thermostatParameterIds: Request)

  /** One add_device call: the class and the arguments of its device. */
  datatype Creation = Creation(kind: Kind, args: DeviceArgs)

  /** The devices a loop adds, in order, and the exception that ended it
      early, if one did. */
  datatype Partial = Partial(creations: seq<Creation>, error: Option<PyError>)

  /** Running one part of a loop, then, unless it raised, the rest. */
  function Then(a: Partial, b: Partial): (r: Partial)
    ensures r.creations == a.creations + (if a.error.None? then b.creations else [])
    ensures r.error == if a.error.Some? then a.error else b.error
  {
    if a.error.Some? then a else Partial(a.creations + b.creations, b.error)
  }

  /** Every device to add has a class that handles its function and at
      least one resolved datapoint, and no callback. */
  ghost predicate WellFormed(cs: seq<Creation>)
  {
    forall c :: c in cs ==>
      KindPairingIds(c.kind, c.args.functionId).Some? && c.args.datapoints != []
      && PyDict.DistinctKeys(c.args.datapoints) && c.args.deviceUpdatedCb.None?
  }

  lemma WellFormedAppend(a: seq<Creation>, b: seq<Creation>)
    requires WellFormed(a) && WellFormed(b)
    ensures WellFormed(a + b)
  {
  }

  // ----- per device -----

  /** The deviceChannelSelector parameter's value as a mask, 0xFFFFFFFF
      without one; a selector without a value raises an AttributeError. */
  function DeviceFilterMask(d: Node): (r: Result<nat, PyError>)
    ensures FindPath(d, "parameters", "parameter", "deviceChannelSelector", "true").None? ==> r == Ok(ALL_32_BITS)
  {
    var p := FindPath(d, "parameters", "parameter", "deviceChannelSelector", "true");
    if p.None? then Ok(ALL_32_BITS)
    else
      var v := Find(p.value, "value");
      if v.None? then Err(AttributeError) else IntHex(v.value.text)
  }

  /** The mask of the option a channelSelector parameter selects: the
      option whose key is the parameter's value as str() writes it. */
  function SelectedMask(p: Node): (r: Result<nat, PyError>)
    ensures r.Ok? ==> Find(p, "value").Some?
                      && (var o := FindPath(p, "valueEnum", "option", "key", ToStr(OfText(Find(p, "value").value.text)));
                          o.Some? && IntHex(Get(o.value, "mask")) == r)
  {
    var v := Find(p, "value");
    if v.None? then Err(AttributeError)
    else
      var o := FindPath(p, "valueEnum", "option", "key", ToStr(OfText(v.value.text)));
      if o.None? then Err(AttributeError) else IntHex(Get(o.value, "mask"))
  }

  /** The selector's match code shares a bit with the device mask. */
  predicate Meets(p: Node, deviceMask: nat)
  {
    IntHex(Get(p, "matchCode")).Ok? && BitAnd(IntHex(Get(p, "matchCode")).value, deviceMask) != 0
  }

  /** The selector's match code is a number sharing no bit with the device
      mask. */
  predicate Misses(p: Node, deviceMask: nat)
  {
    IntHex(Get(p, "matchCode")).Ok? && BitAnd(IntHex(Get(p, "matchCode")).value, deviceMask) == 0
  }

  /** The channelSelector loop: the mask of the last selector whose match
      code meets the device mask, 0xFFFFFFFF when none does. */
  function ChannelFilterMask(selectors: seq<Node>, deviceMask: nat): (r: Result<nat, PyError>)
    ensures FilterMaskSpec(selectors, deviceMask, r)
    decreases |selectors|
  {
    hide IntHex, ParseHex, BitAnd, SelectedMask, Meets, Misses, LastMeeting, FilterMaskSpec;
    if selectors == [] then
      FilterMaskEmpty(deviceMask);
      Ok(ALL_32_BITS)
    else
      var front := selectors[..|selectors| - 1];
      var last := selectors[|selectors| - 1];
      var m := ChannelFilterMask(front, deviceMask);
      var code := IntHex(Get(last, "matchCode"));
      var r := if m.Err? then m
               else if code.Err? then Err(code.error)
               else if Meets(last, deviceMask) then SelectedMask(last)
               else m;
      FilterMaskStep(selectors, deviceMask, m, r);
      r
  }

  /** What ChannelFilterMask promises, clause by clause. */
  ghost predicate FilterMaskSpec(selectors: seq<Node>, deviceMask: nat, r: Result<nat, PyError>)
  {
    DefaultWhenAllMiss(selectors, deviceMask, r) && FromMeeting(selectors, deviceMask, r)
    && AllDecided(selectors, deviceMask, r) && LastDecides(selectors, deviceMask, r)
  }

  /** All selectors missing the device mask give 0xFFFFFFFF. */
  ghost predicate DefaultWhenAllMiss(selectors: seq<Node>, deviceMask: nat, r: Result<nat, PyError>)
  {
    (forall p :: p in selectors ==> Misses(p, deviceMask)) ==> r == Ok(ALL_32_BITS)
  }

  /** A mask other than 0xFFFFFFFF is the selected mask of a selector that
      meets the device mask. */
  ghost predicate FromMeeting(selectors: seq<Node>, deviceMask: nat, r: Result<nat, PyError>)
  {
    r.Ok? && r.value != ALL_32_BITS ==> exists p :: p in selectors && Meets(p, deviceMask) && SelectedMask(p) == r
  }

  /** A mask is only found when every selector's match code is a number. */
  ghost predicate AllDecided(selectors: seq<Node>, deviceMask: nat, r: Result<nat, PyError>)
  {
    r.Ok? ==> forall p :: p in selectors ==> Meets(p, deviceMask) || Misses(p, deviceMask)
  }

  /** The last selector that meets the device mask decides the mask. */
  ghost predicate LastDecides(selectors: seq<Node>, deviceMask: nat, r: Result<nat, PyError>)
  {
    r.Ok? && LastMeeting(selectors, deviceMask).Some? ==>
      r == SelectedMask(selectors[LastMeeting(selectors, deviceMask).value])
  }

  lemma FilterMaskEmpty(deviceMask: nat)
    ensures FilterMaskSpec([], deviceMask, Ok(ALL_32_BITS))
  {
  }

  /** One selector more: the loop's step keeps FilterMaskSpec. */
  lemma FilterMaskStep(selectors: seq<Node>, deviceMask: nat, m: Result<nat, PyError>, r: Result<nat, PyError>)
    requires selectors != []
    requires FilterMaskSpec(selectors[..|selectors| - 1], deviceMask, m)
    requires var last := selectors[|selectors| - 1];
             var code := IntHex(Get(last, "matchCode"));
             r == if m.Err? then m
                  else if code.Err? then Err(code.error)
                  else if Meets(last, deviceMask) then SelectedMask(last)
                  else m
    ensures FilterMaskSpec(selectors, deviceMask, r)
  {
    hide IntHex, ParseHex, BitAnd, SelectedMask, Meets, Misses, LastMeeting, FilterMaskSpec;
    var front := selectors[..|selectors| - 1];
    var last := selectors[|selectors| - 1];
    assert selectors == front + [last];
    MatchCodeCases(last, deviceMask);
    if m.Err? || IntHex(Get(last, "matchCode")).Err? {
      SelectorFails(front, last, deviceMask, m, r);
    } else if Meets(last, deviceMask) {
      SelectorMeets(front, last, deviceMask, m);
    } else {
      SelectorMisses(front, last, deviceMask, m);
    }
  }

  /** A failure before the last selector, or in its match code, is an
      error that the spec allows. */
  lemma SelectorFails(front: seq<Node>, last: Node, deviceMask: nat, m: Result<nat, PyError>, r: Result<nat, PyError>)
    requires FilterMaskSpec(front, deviceMask, m)
    requires m.Err? || IntHex(Get(last, "matchCode")).Err?
    requires r.Err?
    ensures FilterMaskSpec(front + [last], deviceMask, r)
  {
    hide IntHex, ParseHex, BitAnd, SelectedMask, Meets, Misses, LastMeeting;
    MatchCodeCases(last, deviceMask);
    var all := front + [last];
    assert last in all;
    assert forall p :: p in front ==> p in all;
  }

  /** A last selector that meets the device mask decides the mask. */
  lemma SelectorMeets(front: seq<Node>, last: Node, deviceMask: nat, m: Result<nat, PyError>)
    requires Meets(last, deviceMask)
    requires FilterMaskSpec(front, deviceMask, m) && m.Ok?
    ensures FilterMaskSpec(front + [last], deviceMask, SelectedMask(last))
  {
    hide IntHex, ParseHex, BitAnd, SelectedMask, Meets, Misses, LastMeeting;
    hide DefaultWhenAllMiss, FromMeeting, AllDecided, LastDecides;
    MeetsDefault(front, last, deviceMask, SelectedMask(last));
    MeetsFrom(front, last, deviceMask);
    MeetsDecided(front, last, deviceMask, m);
    MeetsDecides(front, last, deviceMask);
  }

  lemma MeetsDefault(front: seq<Node>, last: Node, deviceMask: nat, r: Result<nat, PyError>)
    requires Meets(last, deviceMask)
    ensures DefaultWhenAllMiss(front + [last], deviceMask, r)
  {
    hide IntHex, ParseHex, BitAnd, SelectedMask, Meets, Misses, LastMeeting;
    MatchCodeCases(last, deviceMask);
    assert last in front + [last];
  }

  lemma MeetsFrom(front: seq<Node>, last: Node, deviceMask: nat)
    requires Meets(last, deviceMask)
    ensures FromMeeting(front + [last], deviceMask, SelectedMask(last))
  {
    hide IntHex, ParseHex, BitAnd, SelectedMask, Meets, Misses, LastMeeting;
    assert last in front + [last];
  }

  lemma MeetsDecided(front: seq<Node>, last: Node, deviceMask: nat, m: Result<nat, PyError>)
    requires Meets(last, deviceMask)
    requires AllDecided(front, deviceMask, m) && m.Ok?
    ensures AllDecided(front + [last], deviceMask, SelectedMask(last))
  {
    hide IntHex, ParseHex, BitAnd, SelectedMask, Meets, Misses, LastMeeting;
    assert forall p :: p in front + [last] ==> p in front || p == last;
  }

  lemma MeetsDecides(front: seq<Node>, last: Node, deviceMask: nat)
    requires Meets(last, deviceMask)
    ensures LastDecides(front + [last], deviceMask, SelectedMask(last))
  {
    hide IntHex, ParseHex, BitAnd, SelectedMask, Meets, Misses;
    var all := front + [last];
    assert all[|front|] == last;
    assert LastMeeting(all, deviceMask) == Some(|front|);
  }

  /** A last selector that misses the device mask leaves the mask to the
      ones before it. */
  lemma SelectorMisses(front: seq<Node>, last: Node, deviceMask: nat, m: Result<nat, PyError>)
    requires Misses(last, deviceMask)
    requires FilterMaskSpec(front, deviceMask, m)
    ensures FilterMaskSpec(front + [last], deviceMask, m)
  {
    hide IntHex, ParseHex, BitAnd, SelectedMask, Meets, Misses, LastMeeting;
    hide DefaultWhenAllMiss, FromMeeting, AllDecided, LastDecides;
    MissesDefault(front, last, deviceMask, m);
    MissesFrom(front, last, deviceMask, m);
    MissesDecided(front, last, deviceMask, m);
    MissesDecides(front, last, deviceMask, m);
  }

  lemma MissesDefault(front: seq<Node>, last: Node, deviceMask: nat, m: Result<nat, PyError>)
    requires DefaultWhenAllMiss(front, deviceMask, m)
    ensures DefaultWhenAllMiss(front + [last], deviceMask, m)
  {
    hide IntHex, ParseHex, BitAnd, SelectedMask, Meets, Misses, LastMeeting;
    assert forall p :: p in front ==> p in front + [last];
  }

  lemma MissesFrom(front: seq<Node>, last: Node, deviceMask: nat, m: Result<nat, PyError>)
    requires FromMeeting(front, deviceMask, m)
    ensures FromMeeting(front + [last], deviceMask, m)
  {
    hide IntHex, ParseHex, BitAnd, SelectedMask, Meets, Misses, LastMeeting;
    assert forall p :: p in front ==> p in front + [last];
  }

  lemma MissesDecided(front: seq<Node>, last: Node, deviceMask: nat, m: Result<nat, PyError>)
    requires Misses(last, deviceMask)
    requires AllDecided(front, deviceMask, m)
    ensures AllDecided(front + [last], deviceMask, m)
  {
    hide IntHex, ParseHex, BitAnd, SelectedMask, Meets, Misses, LastMeeting;
    assert forall p :: p in front + [last] ==> p in front || p == last;
  }

  lemma MissesDecides(front: seq<Node>, last: Node, deviceMask: nat, m: Result<nat, PyError>)
    requires Misses(last, deviceMask)
    requires LastDecides(front, deviceMask, m)
    ensures LastDecides(front + [last], deviceMask, m)
  {
    hide IntHex, ParseHex, BitAnd, SelectedMask, Meets, Misses;
    var all := front + [last];
    MatchCodeCases(last, deviceMask);
    assert !Meets(all[|front|], deviceMask);
    assert LastMeetingBelow(all, |all|, deviceMask) == LastMeetingBelow(all, |front|, deviceMask);
    LastMeetingPrefix(front, all, |front|, deviceMask);
    assert LastMeeting(all, deviceMask) == LastMeeting(front, deviceMask);
  }

  /** A selector whose match code is a number either meets the device mask
      or misses it, never both. */
  lemma MatchCodeCases(p: Node, deviceMask: nat)
    ensures IntHex(Get(p, "matchCode")).Ok? <==> Meets(p, deviceMask) || Misses(p, deviceMask)
    ensures !(Meets(p, deviceMask) && Misses(p, deviceMask))
  {
  }

  /** The position of the last selector whose match code meets the device
      mask, None when none does. */
  function LastMeeting(selectors: seq<Node>, deviceMask: nat): (k: Option<nat>)
    ensures k.Some? ==> k.value < |selectors| && Meets(selectors[k.value], deviceMask)
                        && forall j :: k.value < j < |selectors| ==> !Meets(selectors[j], deviceMask)
    ensures k.None? ==> forall j :: 0 <= j < |selectors| ==> !Meets(selectors[j], deviceMask)
  {
    LastMeetingBelow(selectors, |selectors|, deviceMask)
  }

  /** The position of the last selector before position n that meets the
      device mask. */
  function LastMeetingBelow(selectors: seq<Node>, n: nat, deviceMask: nat): (k: Option<nat>)
    requires n <= |selectors|
    ensures k.Some? ==> k.value < n && Meets(selectors[k.value], deviceMask)
                        && forall j :: k.value < j < n ==> !Meets(selectors[j], deviceMask)
    ensures k.None? ==> forall j :: 0 <= j < n ==> !Meets(selectors[j], deviceMask)
  {
    hide IntHex, ParseHex, BitAnd, Meets, Misses, Get;
    if n == 0 then None
    else if Meets(selectors[n - 1], deviceMask) then Some(n - 1)
    else LastMeetingBelow(selectors, n - 1, deviceMask)
  }

  /** Selectors added after position n do not change the last one before it
      that meets the device mask. */
  lemma {:induction false} LastMeetingPrefix(front: seq<Node>, all: seq<Node>, n: nat, deviceMask: nat)
    requires n <= |front| <= |all|
    requires forall j :: 0 <= j < n ==> front[j] == all[j]
    ensures LastMeetingBelow(front, n, deviceMask) == LastMeetingBelow(all, n, deviceMask)
  {
    hide IntHex, ParseHex, BitAnd, Meets, Misses, Get;
    if n > 0 {
      LastMeetingPrefix(front, all, n - 1, deviceMask);
    }
  }

  /** The device's own name: its display name when it has one, else the
      model name of its name id, followed by the serial number in
      parentheses; a missing text or serial number raises a TypeError. */
  function DeviceName(displayName: Option<string>, model: string, serial: Option<string>): (r: Result<string, PyError>)
    ensures r.Ok? <==> serial.Some? && displayName.Some?
    ensures r.Ok? ==> var base := if displayName == Some("") then model else displayName.value;
                      r.value == base + " (" + serial.value + ")"
  {
    var base := if displayName != Some("") then displayName else Some(model);
    if base.None? || serial.None? then Err(TypeError) else Ok(base.value + " (" + serial.value + ")")
  }

  /** A device find_devices ignores: external, not commissioned, or
      without channels. */
  predicate Ignored(d: Node)
  {
    Get(d, "isExternal") == Some("true") || Get(d, "commissioningState") != Some("ready") || Find(d, "channels").None?
  }

  /** What every channel of a device shares. */
  datatype DeviceContext = DeviceContext(serial: string, displayName: Option<string>, floor: Option<string>,
                                         room: Option<string>, info: DeviceInfo, filterMask: nat)

  /** The device loop's body up to its channels: the model name, the
      device name and the masks; None for an external device, one not yet
      commissioned or one without channels. */
  function DeviceHeader(d: Node, env: Env): (r: Result<Option<(DeviceContext, Node)>, PyError>)
    ensures r.Ok? && r.value.Some? ==>
              !Ignored(d) && Find(d, "channels") == Some(r.value.value.1)
              && Get(d, "serialNumber") == Some(r.value.value.0.serial)
    ensures r.Ok? && Ignored(d) ==> r.value.None?
  {
    var serial := Get(d, "serialNumber");
    var nameId := Get(d, "nameId");
    var display := GetAttribute(d, "displayName");
    if nameId.None? || nameId.value !in env.names then Err(KeyError)
    else
      var model := env.names[nameId.value];
      var name :- DeviceName(display, model, serial);
      if Ignored(d) then Ok(None)
      else
        var deviceMask :- DeviceFilterMask(d);
        var selectors := AllWith(Grandchildren(d, "parameters", "parameter"), "channelSelector", "true");
        var filterMask :- ChannelFilterMask(selectors, deviceMask);
        var info := DeviceInfo("http://" + env.host + "/", serial.value, name, model, Get(d, "softwareVersion"));
        Ok(Some((DeviceContext(serial.value, display, GetAttribute(d, "floor"), GetAttribute(d, "room"), info, filterMask),
                 Find(d, "channels").value)))
  }

  // ----- per channel -----

  /** A channel takes floor and room from its device when it has no floor
      of its own or is marked as in the same location. */
  predicate UsesDeviceLocation(ch: Node)
  {
    GetAttribute(ch, "floor") == Some("") || Get(ch, "sameLocation") == Some("true")
  }

  function ChannelFloor(ch: Node, ctx: DeviceContext): Option<string>
  {
    if UsesDeviceLocation(ch) then ctx.floor else GetAttribute(ch, "floor")
  }

  function ChannelRoom(ch: Node, ctx: DeviceContext): Option<string>
  {
    if UsesDeviceLocation(ch) then ctx.room else GetAttribute(ch, "room")
  }

  /** The channel's display name: its own when configured, else the
      device's, else serial number and channel id. */
  function DisplayName(channelDisplay: Option<string>, deviceDisplay: Option<string>, serial: string,
                       channelId: Option<string>): (r: Result<Option<string>, PyError>)
    ensures channelDisplay != Some("") ==> r == Ok(channelDisplay)
    ensures channelDisplay == Some("") && deviceDisplay != Some("") ==> r == Ok(deviceDisplay)
    ensures channelDisplay == Some("") && deviceDisplay == Some("") ==>
              r == if channelId.None? then Err(TypeError) else Ok(Some(serial + "/" + channelId.value))
  {
    var display := if channelDisplay != Some("") then channelDisplay else deviceDisplay;
    if display != Some("") then Ok(display)
    else if channelId.None? then Err(TypeError)
    else Ok(Some(serial + "/" + channelId.value))
  }

  /** ' (' + room name + ')' when floor and room are set and room names are
      wanted, else ''; a floor or room the room names do not list raises a
      KeyError. */
  function RoomSuffix(floor: Option<string>, room: Option<string>, env: Env): (r: Result<string, PyError>)
    ensures !(floor != Some("") && room != Some("") && env.useRoomNames) ==> r == Ok("")
    ensures r.Ok? && r.value != "" ==>
              floor.Some? && room.Some? && floor.value in env.roomnames && room.value in env.roomnames[floor.value]
              && r.value == " (" + env.roomnames[floor.value][room.value] + ")"
  {
    if floor != Some("") && room != Some("") && env.useRoomNames then
      if floor.None? || floor.value !in env.roomnames || room.None? || room.value !in env.roomnames[floor.value] then
        Err(KeyError)
      else Ok(" (" + env.roomnames[floor.value][room.value] + ")")
    else Ok("")
  }

  /** What every class asked about a channel shares. */
  datatype ChannelContext = ChannelContext(channelId: Option<string>, nameId: nat, functionId: Option<int>,
                                           displayName: Option<string>, roomSuffix: string)

  /** The function id attribute: none when absent or empty, else hex. */
  function FunctionIdOf(ch: Node): (r: Result<Option<int>, PyError>)
    ensures GetAttribute(ch, "functionId") in {None, Some("")} ==> r == Ok(None)
    ensures r.Ok? && r.value.Some? ==> IntHex(GetAttribute(ch, "functionId")) == Ok(r.value.value)
  {
    var f := GetAttribute(ch, "functionId");
    if f.None? || f == Some("") then Ok(None)
    else
      var id :- IntHex(f);
      Ok(Some(id))
  }

  /** The channel loop's body before the classes are asked; None for a
      channel its mask filters out or one with no room. */
  function ChannelHeader(ch: Node, ctx: DeviceContext, env: Env): (r: Result<Option<ChannelContext>, PyError>)
    ensures r.Ok? && r.value.Some? ==>
              IntHex(Get(ch, "mask")).Ok? && BitAnd(IntHex(Get(ch, "mask")).value, ctx.filterMask) != 0
              && ChannelRoom(ch, ctx) != Some("")
              && r.value.value.channelId == Get(ch, "i")
              && Ok(r.value.value.displayName) == DisplayName(GetAttribute(ch, "displayName"), ctx.displayName, ctx.serial, Get(ch, "i"))
              && Ok(r.value.value.roomSuffix) == RoomSuffix(ChannelFloor(ch, ctx), ChannelRoom(ch, ctx), env)
              && Ok(r.value.value.functionId) == FunctionIdOf(ch)
  {
    var channelId := Get(ch, "i");
    var nameId :- IntHex(Get(ch, "nameId"));
    var functionId :- FunctionIdOf(ch);
    var mask :- IntHex(Get(ch, "mask"));
    if BitAnd(mask, ctx.filterMask) == 0 then Ok(None)
    else
      var display :- DisplayName(GetAttribute(ch, "displayName"), ctx.displayName, ctx.serial, channelId);
      var roomSuffix :- RoomSuffix(ChannelFloor(ch, ctx), ChannelRoom(ch, ctx), env);
      if ChannelRoom(ch, ctx) == Some("") then Ok(None)
      else Ok(Some(ChannelContext(channelId, nameId, functionId, display, roomSuffix)))
  }

  /** The parameters a class gets: resolved for a thermostat, none for any
      other class. */
  function KindParameters(k: Kind, ch: Node, env: Env): (r: Result<PyDict.Dict<int, string>, PyError>)
    ensures k != ThermostatKind ==> r == Ok([])
    ensures r.Ok? ==> PyDict.DistinctKeys(r.value)
    ensures r.Ok? ==> forall e :: e in r.value ==>
              exists g :: g in env.thermostatParameterIds && e.0 in g.1
                          && GetById(ch, ParameterLookup(g.0), e.0) == Ok(Some(e.1))
  {
    if k == ThermostatKind then GetParametersByParameterIds(ch, env.thermostatParameterIds) else Ok([])
  }

  /** One class asked about one channel: a device when the class handles
      the function and at least one of its pairing ids resolves, named by
      display name, position suffix and room suffix. */
  function KindPlan(k: Kind, ch: Node, ctx: DeviceContext, cc: ChannelContext, env: Env): (r: Partial)
    ensures |r.creations| <= 1
    ensures r.creations != [] ==>
              var c := r.creations[0];
              var pids := KindPairingIds(k, cc.functionId);
              c.kind == k && pids.Some? && GetDatapointsByPairingIds(ch, AsRequest(pids.value)) == Ok(c.args.datapoints)
              && c.args.datapoints != [] && KindParameters(k, ch, env) == Ok(c.args.parameters)
              && cc.channelId == Some(c.args.channelId) && c.args.serialnumber == ctx.serial
              && c.args.functionId == cc.functionId && c.args.deviceInfo == ctx.info
              && cc.displayName.Some?
              && c.args.name == cc.displayName.value + (if cc.nameId in NAME_IDS_TO_BINARY_SENSOR_SUFFIX
                                                         then NAME_IDS_TO_BINARY_SENSOR_SUFFIX[cc.nameId] else "")
                                + cc.roomSuffix
    ensures r.creations == [] && r.error.None? ==>
              var pids := KindPairingIds(k, cc.functionId);
              pids.None? || GetDatapointsByPairingIds(ch, AsRequest(pids.value)) == Ok([])
    ensures WellFormed(r.creations)
  {
    var pids := KindPairingIds(k, cc.functionId);
    if pids.None? then Partial([], None)
    else
      var dps := GetDatapointsByPairingIds(ch, AsRequest(pids.value));
      var params := KindParameters(k, ch, env);
      if dps.Err? then Partial([], Some(dps.error))
      else if params.Err? then Partial([], Some(params.error))
      else if dps.value == [] then Partial([], None)
      else if cc.displayName.None? || cc.channelId.None? then Partial([], Some(TypeError))
      else
        var suffix := if cc.nameId in NAME_IDS_TO_BINARY_SENSOR_SUFFIX then NAME_IDS_TO_BINARY_SENSOR_SUFFIX[cc.nameId] else "";
        Partial([Creation(k, DeviceArgs(ctx.info, ctx.serial, cc.channelId.value, cc.functionId,
                                        cc.displayName.value + suffix + cc.roomSuffix, dps.value, params.value, None))], None)
  }

  /** The loop over the classes, in order. */
  function KindsPlan(ks: seq<Kind>, ch: Node, ctx: DeviceContext, cc: ChannelContext, env: Env): (r: Partial)
    ensures forall c :: c in r.creations ==> c.kind in ks
    ensures WellFormed(r.creations)
  {
    if ks == [] then Partial([], None)
    else
      var a := KindPlan(ks[0], ch, ctx, cc, env);
      var b := KindsPlan(ks[1..], ch, ctx, cc, env);
      WellFormedAppend(a.creations, b.creations);
      Then(a, b)
  }

  /** One channel: nothing for a channel filtered out or without a room. */
  function ChannelPlan(ch: Node, ctx: DeviceContext, env: Env): (r: Partial)
    ensures r.creations != [] ==>
              IntHex(Get(ch, "mask")).Ok? && BitAnd(IntHex(Get(ch, "mask")).value, ctx.filterMask) != 0
              && ChannelRoom(ch, ctx) != Some("")
    ensures WellFormed(r.creations)
    ensures forall c :: c in r.creations ==> c.args.serialnumber == ctx.serial && Get(ch, "i") == Some(c.args.channelId)
  {
    match ChannelHeader(ch, ctx, env)
    case Err(e) => Partial([], Some(e))
    case Ok(None) => Partial([], None)
    case Ok(Some(cc)) => KindsPlanFrom(ch, ctx, cc, env)
  }

  /** KindsPlan over every class, with what its creations share. */
  function KindsPlanFrom(ch: Node, ctx: DeviceContext, cc: ChannelContext, env: Env): (r: Partial)
    requires cc.channelId == Get(ch, "i")
    ensures r == KindsPlan(KINDS, ch, ctx, cc, env)
    ensures forall c :: c in r.creations ==> c.args.serialnumber == ctx.serial && Get(ch, "i") == Some(c.args.channelId)
  {
    KindsPlanShared(KINDS, ch, ctx, cc, env);
    KindsPlan(KINDS, ch, ctx, cc, env)
  }

  lemma {:induction false} KindsPlanShared(ks: seq<Kind>, ch: Node, ctx: DeviceContext, cc: ChannelContext, env: Env)
    ensures forall c :: c in KindsPlan(ks, ch, ctx, cc, env).creations ==>
                          c.args.serialnumber == ctx.serial && cc.channelId == Some(c.args.channelId)
  {
    hide KindsPlan, KindPlan, Then;
    if ks != [] {
      KindsPlanShared(ks[1..], ch, ctx, cc, env);
      KindsPlanCons(ks, ch, ctx, cc, env);
      KindPlanShared(ks[0], ch, ctx, cc, env);
    } else {
      KindsPlanCons(ks, ch, ctx, cc, env);
    }
  }

  /** A class's creation carries the device's serial number and the
      channel's id. */
  lemma KindPlanShared(k: Kind, ch: Node, ctx: DeviceContext, cc: ChannelContext, env: Env)
    ensures forall c :: c in KindPlan(k, ch, ctx, cc, env).creations ==>
                          c.args.serialnumber == ctx.serial && cc.channelId == Some(c.args.channelId)
  {
    var a := KindPlan(k, ch, ctx, cc, env);
    assert forall c :: c in a.creations ==> c == a.creations[0];
  }

  /** Every creation of the loop comes from its first class or from the
      rest of the loop. */
  lemma KindsPlanCons(ks: seq<Kind>, ch: Node, ctx: DeviceContext, cc: ChannelContext, env: Env)
    ensures ks == [] ==> KindsPlan(ks, ch, ctx, cc, env).creations == []
    ensures ks != [] ==> forall c :: c in KindsPlan(ks, ch, ctx, cc, env).creations ==>
      c in KindPlan(ks[0], ch, ctx, cc, env).creations || c in KindsPlan(ks[1..], ch, ctx, cc, env).creations
  {
  }

  /** The channel loop of one device. */
  function ChannelsPlan(chs: seq<Node>, ctx: DeviceContext, env: Env): (r: Partial)
    ensures WellFormed(r.creations)
    ensures forall c :: c in r.creations ==> c.args.serialnumber == ctx.serial
  {
    if chs == [] then Partial([], None)
    else
      var a := ChannelPlan(chs[0], ctx, env);
      var b := ChannelsPlan(chs[1..], ctx, env);
      WellFormedAppend(a.creations, b.creations);
      Then(a, b)
  }

  /** One device: nothing for an external device, one not commissioned or
      one without channels. */
  function DevicePlan(d: Node, env: Env): (r: Partial)
    ensures WellFormed(r.creations)
    ensures r.creations != [] ==> !Ignored(d)
    ensures forall c :: c in r.creations ==> Get(d, "serialNumber") == Some(c.args.serialnumber)
  {
    match DeviceHeader(d, env)
    case Err(e) => Partial([], Some(e))
    case Ok(None) => Partial([], None)
    case Ok(Some(h)) => ChannelsPlan(FindAll(h.1, "channel"), h.0, env)
  }

  /** The device loop. */
  function DevicesPlan(ds: seq<Node>, env: Env): (r: Partial)
    ensures WellFormed(r.creations)
  {
    if ds == [] then Partial([], None)
    else
      var a := DevicePlan(ds[0], env);
      var b := DevicesPlan(ds[1..], env);
      WellFormedAppend(a.creations, b.creations);
      Then(a, b)
  }

  /** find_devices on a configuration document: a document without a
      devices element raises an AttributeError. */
  function Plan(root: Node, env: Env): (r: Partial)
    ensures WellFormed(r.creations)
    ensures Find(root, "devices").None? ==> r == Partial([], Some(AttributeError))
  {
    var devices := Find(root, "devices");
    if devices.None? then Partial([], Some(AttributeError)) else DevicesPlan(FindAll(devices.value, "device"), env)
  }
}
