/** A channel whose state is on or off: sensor-unit rockers, window
    contacts, alarms, weather-station alarms and doorbells
    (custom_components/freeathome/fah/devices/fah_binary_sensor.py). */
module FahBinarySensor {
  import opened Wrappers
  import opened Const
  import opened FahDevice

  predicate InAny(functionId: Option<int>, ids: set<int>)
  {
    functionId.Some? && functionId.value in ids
  }

  /** The outputs a binary-sensor function is paired through. */
  const BINARY_SENSOR_OUTPUTS: seq<int> := [
    PID_SWITCH_ON_OFF, PID_TIMED_START_STOP, PID_FORCE_POSITION, PID_RELATIVE_SET_VALUE, PID_MOVE_UP_DOWN,
    PID_ADJUST_UP_DOWN, PID_WIND_ALARM, PID_FROST_ALARM, PID_RAIN_ALARM, PID_BRIGHTNESS_ALARM,
    PID_FORCE_POSITION_BLIND, PID_WINDOW_DOOR, PID_WINDOW_DOOR_POSITION, PID_SWITCHOVER_HEATING_COOLING,
    PID_MOVEMENT_UNDER_CONSIDERATION_OF_BRIGHTNESS, PID_PRESENCE, PID_FIRE_ALARM_ACTIVE, PID_CO_ALARM_ACTIVE]

  const WEATHER_STATION_OUTPUTS: seq<int> := [PID_WIND_ALARM, PID_FROST_ALARM, PID_BRIGHTNESS_ALARM]

  /** pairing_ids: binary sensors, weather stations and doorbells, each
      through outputs only; the first matching id set decides. */
  function PairingIdsFor(functionId: Option<int>): (r: Option<PairingIds>)
    ensures r.Some? <==> InAny(functionId, FUNCTION_IDS_BINARY_SENSOR + FUNCTION_IDS_WEATHER_STATION
                                           + FUNCTION_IDS_DOORBELL_SENSOR)
    ensures r.Some? ==> r.value.inputs == []
    ensures InAny(functionId, FUNCTION_IDS_BINARY_SENSOR) ==> r == Some(PairingIds([], BINARY_SENSOR_OUTPUTS))
    ensures InAny(functionId, FUNCTION_IDS_DOORBELL_SENSOR)
            && !InAny(functionId, FUNCTION_IDS_BINARY_SENSOR + FUNCTION_IDS_WEATHER_STATION) ==>
              r == Some(PairingIds([], [PID_TIMED_START_STOP]))
  {
    if InAny(functionId, FUNCTION_IDS_BINARY_SENSOR) then Some(PairingIds([], BINARY_SENSOR_OUTPUTS))
    else if InAny(functionId, FUNCTION_IDS_WEATHER_STATION) then Some(PairingIds([], WEATHER_STATION_OUTPUTS))
    else if InAny(functionId, FUNCTION_IDS_DOORBELL_SENSOR) then Some(PairingIds([], [PID_TIMED_START_STOP]))
    else None
  }

  class BinarySensor {
    const device: Device
    /** '0' or '1' once reported. */
    var state: Option<string>
    var windowPosition: Option<string>

    constructor(a: DeviceArgs)
      ensures fresh(device) && device.Made(a) && state == None && windowPosition == None
    {
      device := new Device(a);
      state, windowPosition := None, None;
    }

    /** update_datapoint: the window-position datapoint is stored as
        reported; every other datapoint sets the state, to '0' for '0' and
        to '1' for anything else, so the state only ever holds '0' or '1'. */
    method UpdateDatapoint(dp: string, value: Option<string>)
      modifies this
      ensures device.Dp(PID_WINDOW_DOOR_POSITION) == Some(dp) ==> windowPosition == value && state == old(state)
      ensures device.Dp(PID_WINDOW_DOOR_POSITION) != Some(dp) ==>
                windowPosition == old(windowPosition) && state == Some(if value == Some("0") then "0" else "1")
      ensures state == old(state) || state == Some("0") || state == Some("1")
    {
      if device.Dp(PID_WINDOW_DOOR_POSITION) == Some(dp) {
        windowPosition := value;
      } else {
        state := Some(if value == Some("0") then "0" else "1");
      }
    }

    /** get_icon: a doorbell shows a doorbell, nothing else has an icon. */
    function GetIcon(): (r: Option<string>)
      ensures r.Some? <==> InAny(device.functionId, FUNCTION_IDS_DOORBELL_SENSOR)
      ensures r.Some? ==> r.value == "mdi:doorbell"
    {
      if InAny(device.functionId, FUNCTION_IDS_DOORBELL_SENSOR) then Some("mdi:doorbell") else None
    }

    predicate IsFireSensor() { device.Has(PID_FIRE_ALARM_ACTIVE) }
    predicate IsCoSensor() { device.Has(PID_CO_ALARM_ACTIVE) }
  }
}
