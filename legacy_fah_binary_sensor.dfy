/** The older binary sensor (freeathome/fah/devices/fah_binary_sensor.py):
    a sensor unit's switch output or a movement detector's movement output,
    stored as reported. */
module LegacyFahBinarySensor {
  import opened Wrappers
  import opened Const
  import LegacyConst
  import opened FahDevice

  predicate InAny(functionId: Option<int>, ids: set<int>)
  {
    functionId.Some? && functionId.value in ids
  }

  /** pairing_ids: a sensor unit reports through its switch output, a
      movement detector that is not a sensor unit through its movement
      output; every other function id has none. */
  function PairingIdsFor(functionId: Option<int>): (r: Option<PairingIds>)
    ensures r.Some? <==> InAny(functionId, LegacyConst.FUNCTION_IDS_SENSOR_UNIT + FUNCTION_IDS_MOVEMENT_DETECTOR)
    ensures InAny(functionId, LegacyConst.FUNCTION_IDS_SENSOR_UNIT) ==> r == Some(PairingIds([], [PID_SWITCH_ON_OFF]))
    ensures r.Some? && !InAny(functionId, LegacyConst.FUNCTION_IDS_SENSOR_UNIT) ==>
              r == Some(PairingIds([], [PID_MOVEMENT_UNDER_CONSIDERATION_OF_BRIGHTNESS]))
  {
    if InAny(functionId, LegacyConst.FUNCTION_IDS_SENSOR_UNIT) then Some(PairingIds([], [PID_SWITCH_ON_OFF]))
    else if InAny(functionId, FUNCTION_IDS_MOVEMENT_DETECTOR) then
      Some(PairingIds([], [PID_MOVEMENT_UNDER_CONSIDERATION_OF_BRIGHTNESS]))
    else None
  }

  class BinarySensor {
    const device: Device
    var state: Option<string>

    constructor(a: DeviceArgs)
      ensures fresh(device) && device.Made(a) && state == None
    {
      device := new Device(a);
      state := None;
    }

    /** update_datapoint: the switch or movement report is stored as
        reported; any other datapoint changes nothing. */
    method UpdateDatapoint(dp: string, value: Option<string>)
      modifies this
      ensures state == if device.Dp(PID_SWITCH_ON_OFF) == Some(dp)
                          || device.Dp(PID_MOVEMENT_UNDER_CONSIDERATION_OF_BRIGHTNESS) == Some(dp)
                       then value else old(state)
    {
      if device.Dp(PID_SWITCH_ON_OFF) == Some(dp) || device.Dp(PID_MOVEMENT_UNDER_CONSIDERATION_OF_BRIGHTNESS) == Some(dp) {
        state := value;
      }
    }
  }
}
