/** The base object every device kind shares
    (custom_components/freeathome/fah/devices/fah_device.py): where the device
    sits, which datapoints and parameters were resolved for it, and the
    callbacks run after its state changed. The client the source keeps a
    reference to appears only through `commands`, the record of the
    `set_datapoint` calls the device made on it. */
module FahDevice {
  import opened Wrappers
  import opened PyValue
  import PyDict
  import opened PyList

  /** A registered callback, known only by identity. */
  type Callback = nat

  /** One client.set_datapoint(serialnumber, channel_id, datapoint, value) call. */
  datatype Command = Command(serialnumber: string, channelId: string, datapoint: string, value: string)

  /** What a class's pairing_ids returns: the pairing ids to resolve among
      the channel's input datapoints, then among its output datapoints. */
  datatype PairingIds = PairingIds(inputs: seq<int>, outputs: seq<int>)

  /** The device_info dict discovery passes on to every device of a unit. */
  datatype DeviceInfo = DeviceInfo(configurationUrl: string, serialnumber: string, name: string, model: string,
                                   swVersion: Option<string>)

  /** A positional argument of a call to FahDevice.__init__, after `client`. */
  datatype Arg = Info(info: DeviceInfo) | Text(s: string) | FunctionId(id: Option<int>)

  /** The parameters device_info, serialnumber, channel_id, function_id and
      name, as Python binds them. */
  datatype Bound = Bound(deviceInfo: Arg, serialnumber: Arg, channelId: Arg, functionId: Arg, name: Arg)

  /** Binding positional arguments to FahDevice.__init__ (fah_device.py:4):
      its five parameters after `client` have no default, so fewer than five
      positional arguments raise TypeError; the others are passed by keyword. */
  function BindInit(args: seq<Arg>): (r: Result<Bound, PyError>)
    requires |args| <= 5
    ensures r.Ok? <==> |args| == 5
    ensures r.Ok? ==> r.value.functionId == args[3] && r.value.name == args[4]
  {
    if |args| < 5 then Err(TypeError) else Ok(Bound(args[0], args[1], args[2], args[3], args[4]))
  }

  /** serialnumber + "/" + channel_id (fah_device.py:55-58). */
  function LookupKey(serialnumber: string, channelId: string): (k: string)
    ensures |k| == |serialnumber| + 1 + |channelId| && k[|serialnumber|] == '/'
    ensures k[..|serialnumber|] == serialnumber && k[|serialnumber| + 1..] == channelId
  {
    serialnumber + "/" + channelId
  }

  /** Serial numbers contain no '/', so a lookup key names one channel of one
      device: two keys are equal only for the same serial number and channel. */
  lemma LookupKeyInjective(s1: string, c1: string, s2: string, c2: string)
    requires '/' !in s1 && '/' !in s2
    requires LookupKey(s1, c1) == LookupKey(s2, c2)
    ensures s1 == s2 && c1 == c2
  {
  }

  /** The arguments FahDevice.__init__ binds, once bound by keyword. */
  datatype DeviceArgs = DeviceArgs(deviceInfo: DeviceInfo, serialnumber: string, channelId: string,
                                   functionId: Option<int>, name: string,
                                   datapoints: PyDict.Dict<int, string>, parameters: PyDict.Dict<int, string>,
                                   deviceUpdatedCb: Option<Callback>)

  class Device {
    const deviceInfo: DeviceInfo
    const serialnumber: string
    const channelId: string
    const functionId: Option<int>
    const name: string
    /** Pairing id -> datapoint id, in the order discovery resolved them. */
    const datapoints: PyDict.Dict<int, string>
    /** Parameter id -> parameter number. */
    const parameters: PyDict.Dict<int, string>
    var callbacks: seq<Callback>
    /** The callbacks after_update has run, in order. */
    var invoked: seq<Callback>
    /** The set_datapoint calls made on the client, in order. */
    var commands: seq<Command>

    /** FahDevice.__init__: the callback is registered only when one is given. */
    constructor(a: DeviceArgs)
      ensures Made(a)
    {
      deviceInfo := a.deviceInfo;
      serialnumber := a.serialnumber;
      channelId := a.channelId;
      functionId := a.functionId;
      name := a.name;
      datapoints := a.datapoints;
      parameters := a.parameters;
      callbacks := [];
      invoked := [];
      commands := [];
      new;
      if a.deviceUpdatedCb.Some? {
        RegisterDeviceUpdatedCb(a.deviceUpdatedCb.value);
      }
    }

    /** The state right after construction from `a`: the accessors return
        the arguments unchanged, and a callback is registered only when one
        was given. */
    ghost predicate Made(a: DeviceArgs)
      reads this
    {
      deviceInfo == a.deviceInfo && serialnumber == a.serialnumber && channelId == a.channelId
      && functionId == a.functionId && name == a.name
      && datapoints == a.datapoints && parameters == a.parameters
      && callbacks == (if a.deviceUpdatedCb.Some? then [a.deviceUpdatedCb.value] else [])
      && invoked == [] && commands == []
    }

    /** self._datapoints.get(pid): the datapoint resolved for a pairing id. */
    function Dp(pid: int): Option<string>
    {
      PyDict.Get(datapoints, pid)
    }

    /** pid in self._datapoints. */
    predicate Has(pid: int)
    {
      pid in PyDict.Keys(datapoints)
    }

    /** The set_datapoint call for this channel's datapoint dp. */
    function Sent(dp: string, value: string): Command
    {
      Command(serialnumber, channelId, dp, value)
    }

    /** The calls set_datapoint(..., self._datapoints[pid], value) makes:
        one when pid is resolved, none (the lookup raises) otherwise. */
    function SendsTo(pid: int, value: string): (cs: seq<Command>)
      ensures |cs| == if Has(pid) then 1 else 0
    {
      if Dp(pid).Some? then [Sent(Dp(pid).value, value)] else []
    }

    method RegisterDeviceUpdatedCb(cb: Callback)
      modifies this
      ensures callbacks == old(callbacks) + [cb]
      ensures invoked == old(invoked) && commands == old(commands)
    {
      callbacks := callbacks + [cb];
    }

    /** unregister_device_cb: list.remove raises ValueError when the
        callback was never registered. */
    method UnregisterDeviceCb(cb: Callback) returns (r: Outcome<PyError>)
      modifies this
      ensures cb in old(callbacks) ==>
      r.Pass? && callbacks == RemoveFirst(old(callbacks), cb) &&
      |callbacks| == |old(callbacks)| - 1 && multiset(callbacks) == multiset(old(callbacks)) - multiset{cb}
      ensures cb !in old(callbacks) ==> r == Fail(ValueError) && callbacks == old(callbacks)
      ensures invoked == old(invoked) && commands == old(commands)
    {
      if cb !in callbacks {
        return Fail(ValueError);
      }
      callbacks := RemoveFirst(callbacks, cb);
      return Pass;
    }

    /** after_update: every registered callback runs once, in registration order. */
    method AfterUpdate()
      modifies this
      ensures invoked == old(invoked) + callbacks
      ensures callbacks == old(callbacks) && commands == old(commands)
    {
      for i := 0 to |callbacks|
        invariant callbacks == old(callbacks) && commands == old(commands)
        invariant invoked == old(invoked) + callbacks[..i]
      {
        invoked := invoked + [callbacks[i]];
      }
    }

    /** client.set_datapoint on this device's channel. */
    method SetDatapoint(datapoint: string, value: string)
      modifies this
      ensures commands == old(commands) + [Command(serialnumber, channelId, datapoint, value)]
      ensures callbacks == old(callbacks) && invoked == old(invoked)
    {
      commands := commands + [Command(serialnumber, channelId, datapoint, value)];
    }

    /** client.set_datapoint(serialnumber, channel_id, self._datapoints[pid], value):
        a KeyError, and no call, when the pairing id was not resolved. */
    method SendTo(pid: int, value: string) returns (r: Outcome<PyError>)
      modifies this
      ensures r.Pass? <==> Has(pid)
      ensures r.Fail? ==> r.error == KeyError
      ensures commands == old(commands) + SendsTo(pid, value)
      ensures callbacks == old(callbacks) && invoked == old(invoked)
    {
      var dp := Dp(pid);
      if dp.None? {
        return Fail(KeyError);
      }
      SetDatapoint(dp.value, value);
      return Pass;
    }
  }
}
