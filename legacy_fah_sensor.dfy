/** The older sensor (freeathome/fah/devices/fah_sensor.py): brightness,
    rain detection, outdoor temperature and wind speed only, and the plain
    lookup key of a device. */
module LegacyFahSensor {
  import opened Wrappers
  import opened Const
  import opened FahDevice
  import FahSensor
  import PyDict

  /** The sensor type of each measured pairing id, as the older
      sensor_type_from_pairing_ids tests them. */
  const SENSOR_TYPES: map<int, string> := map[
    PID_MEASURED_BRIGHTNESS := "lux", PID_RAIN_DETECTION := "rain", PID_OUTDOOR_TEMPERATURE := "temperature",
    PID_WIND_SPEED := "windstrength"]

  /** sensor_type_from_pairing_ids: a type exactly when some resolved
      pairing id is a measured one, and then one of the four types. */
  function SensorTypeFromPairingIds(datapoints: PyDict.Dict<int, string>): (r: Option<string>)
    ensures r.None? <==> forall i :: 0 <= i < |datapoints| ==> datapoints[i].0 !in SENSOR_TYPES
    ensures r.Some? ==> r.value in {"lux", "rain", "temperature", "windstrength"}
  {
    FahSensor.FirstSensorType(SENSOR_TYPES, datapoints)
  }

  /** pairing_ids: movement detectors (brightness) and weather stations,
      through outputs only, all of them measured. */
  function PairingIdsFor(functionId: Option<int>): (r: Option<PairingIds>)
    ensures r.Some? <==> FahSensor.InAny(functionId, FUNCTION_IDS_MOVEMENT_DETECTOR + FUNCTION_IDS_WEATHER_STATION)
    ensures r.Some? ==> r.value.inputs == [] && forall p :: p in r.value.outputs ==> p in SENSOR_TYPES
  {
    if FahSensor.InAny(functionId, FUNCTION_IDS_MOVEMENT_DETECTOR) then Some(PairingIds([], [PID_MEASURED_BRIGHTNESS]))
    else if FahSensor.InAny(functionId, FUNCTION_IDS_WEATHER_STATION) then
      Some(PairingIds([], [PID_OUTDOOR_TEMPERATURE, PID_MEASURED_BRIGHTNESS, PID_WIND_SPEED, PID_RAIN_DETECTION]))
    else None
  }

  /** The sensor test: a movement detector named "Bewegungssensor (room1)"
      with its brightness datapoint resolved is a "lux" sensor named
      "Bewegungssensor (room1)_lux". */
  lemma MovementDetectorName(dp: string)
    ensures SensorTypeFromPairingIds([(PID_MEASURED_BRIGHTNESS, dp)]) == Some("lux")
    ensures FahSensor.SensorName("Bewegungssensor (room1)", Some("lux")) == "Bewegungssensor (room1)_lux"
  {
  }

  class Sensor {
    const device: Device
    const sensorType: Option<string>
    var state: Option<string>

    /** FahSensor.__init__: the type comes from the resolved datapoints and
        is appended to the name; the callback argument is not passed on. */
    constructor(a: DeviceArgs)
      ensures sensorType == SensorTypeFromPairingIds(a.datapoints)
      ensures fresh(device) && device.Made(a.(name := FahSensor.SensorName(a.name, sensorType), deviceUpdatedCb := None))
      ensures state == None
    {
      sensorType := SensorTypeFromPairingIds(a.datapoints);
      device := new Device(a.(name := FahSensor.SensorName(a.name, SensorTypeFromPairingIds(a.datapoints)),
                              deviceUpdatedCb := None));
      state := None;
    }

    predicate Measures(dp: string)
    {
      exists p :: p in SENSOR_TYPES && device.Dp(p) == Some(dp)
    }

    /** update_datapoint: a measured datapoint's value is stored as
        reported; any other datapoint changes nothing. */
    method UpdateDatapoint(dp: string, value: Option<string>)
      modifies this
      ensures state == if Measures(dp) then value else old(state)
    {
      if device.Dp(PID_MEASURED_BRIGHTNESS) == Some(dp) || device.Dp(PID_RAIN_DETECTION) == Some(dp)
         || device.Dp(PID_OUTDOOR_TEMPERATURE) == Some(dp) || device.Dp(PID_WIND_SPEED) == Some(dp) {
        state := value;
      }
    }
  }
}
