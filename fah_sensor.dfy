/** A channel with a measured value: brightness, rain, temperature, wind
    speed, humidity, VOC or CO2
    (custom_components/freeathome/fah/devices/fah_sensor.py). */
module FahSensor {
  import opened Wrappers
  import opened Const
  import opened FahDevice
  import PyDict

  /** The sensor type of each measured pairing id. */
  const SENSOR_TYPES: map<int, string> := map[
    PID_MEASURED_BRIGHTNESS := "lux", PID_RAIN_ALARM := "rain", PID_OUTDOOR_TEMPERATURE := "temperature",
    PID_WIND_SPEED := "windstrength", PID_MEASURED_HUMIDITY := "humidity", PID_MEASURED_VOC := "voc",
    PID_MEASURED_CO2 := "co2"]

  /** AIR_QUALITY_PIDS; the source holds them in a set, listed here in the
      order they are declared. */
  const AIR_QUALITY_PIDS: seq<int> := [PID_MEASURED_HUMIDITY, PID_MEASURED_VOC, PID_MEASURED_CO2]

  predicate InAny(functionId: Option<int>, ids: set<int>)
  {
    functionId.Some? && functionId.value in ids
  }

  /** The type of the first resolved pairing id that has one in `types`,
      or None when there is none: the loop of sensor_type_from_pairing_ids,
      over the table of sensor types it tests. */
  function FirstSensorType(types: map<int, string>, datapoints: PyDict.Dict<int, string>): (r: Option<string>)
    ensures r.None? <==> forall i :: 0 <= i < |datapoints| ==> datapoints[i].0 !in types
    ensures r.Some? ==> exists i :: 0 <= i < |datapoints| && datapoints[i].0 in types
                                    && r.value == types[datapoints[i].0]
                                    && forall j :: 0 <= j < i ==> datapoints[j].0 !in types
  {
    if datapoints == [] then None
    else if datapoints[0].0 in types then Some(types[datapoints[0].0])
    else
      var r := FirstSensorType(types, datapoints[1..]);
      assert forall i :: 1 <= i < |datapoints| ==> datapoints[i] == datapoints[1..][i - 1];
      if r.Some? then
        var k :| 0 <= k < |datapoints[1..]| && datapoints[1..][k].0 in types
                 && r.value == types[datapoints[1..][k].0]
                 && forall j :: 0 <= j < k ==> datapoints[1..][j].0 !in types;
        assert forall j :: 0 <= j < k + 1 ==> datapoints[j].0 !in types by {
          forall j | 0 <= j < k + 1
            ensures datapoints[j].0 !in types
          {
            if j > 0 {
              assert datapoints[j] == datapoints[1..][j - 1];
            }
          }
        }
        r
      else r
  }

  /** sensor_type_from_pairing_ids: a type exactly when some resolved
      pairing id is a measured one, and then one of the seven types. */
  function SensorTypeFromPairingIds(datapoints: PyDict.Dict<int, string>): (r: Option<string>)
    ensures r.None? <==> forall i :: 0 <= i < |datapoints| ==> datapoints[i].0 !in SENSOR_TYPES
    ensures r.Some? ==> r.value in SENSOR_TYPES.Values
  {
    FirstSensorType(SENSOR_TYPES, datapoints)
  }

  /** pairing_ids: movement detectors (brightness), weather stations and
      air-quality sensors, through outputs only. */
  function PairingIdsFor(functionId: Option<int>): (r: Option<PairingIds>)
    ensures r.Some? <==> InAny(functionId, FUNCTION_IDS_MOVEMENT_DETECTOR + FUNCTION_IDS_WEATHER_STATION
                                           + FUNCTION_IDS_AIR_QUALITY_SENSOR)
    ensures r.Some? ==> r.value.inputs == [] && forall p :: p in r.value.outputs ==> p in SENSOR_TYPES
  {
    if InAny(functionId, FUNCTION_IDS_MOVEMENT_DETECTOR) then Some(PairingIds([], [PID_MEASURED_BRIGHTNESS]))
    else if InAny(functionId, FUNCTION_IDS_WEATHER_STATION) then
      Some(PairingIds([], [PID_OUTDOOR_TEMPERATURE, PID_MEASURED_BRIGHTNESS, PID_WIND_SPEED, PID_RAIN_ALARM]))
    else if InAny(functionId, FUNCTION_IDS_AIR_QUALITY_SENSOR) then Some(PairingIds([], AIR_QUALITY_PIDS))
    else None
  }

  /** The name a sensor is created with: "_" and its type appended when it
      has one. */
  function SensorName(name: string, sensorType: Option<string>): (n: string)
    ensures sensorType.None? ==> n == name
    ensures sensorType.Some? ==> |n| > |name| && n[..|name|] == name && n[|name|..] == "_" + sensorType.value
  {
    if sensorType.Some? then name + "_" + sensorType.value else name
  }

  /** lookup_key: a sensor with a single resolved air-quality datapoint gets
      that datapoint appended, because humidity, VOC and CO2 share one
      channel. */
  function SensorLookupKey(serialnumber: string, channelId: string, datapoints: PyDict.Dict<int, string>): (k: string)
    ensures var base := LookupKey(serialnumber, channelId);
            if |datapoints| == 1 && datapoints[0].0 in AIR_QUALITY_PIDS then k == base + "/" + datapoints[0].1
            else k == base
  {
    var base := LookupKey(serialnumber, channelId);
    if |datapoints| == 1 && datapoints[0].0 in AIR_QUALITY_PIDS then base + "/" + datapoints[0].1 else base
  }

  /** Two air-quality sensors of one channel, each with its own datapoint,
      get different lookup keys. */
  lemma AirQualityKeysDiffer(serialnumber: string, channelId: string, p1: int, dp1: string, p2: int, dp2: string)
    requires p1 in AIR_QUALITY_PIDS && p2 in AIR_QUALITY_PIDS && dp1 != dp2
    ensures SensorLookupKey(serialnumber, channelId, [(p1, dp1)]) != SensorLookupKey(serialnumber, channelId, [(p2, dp2)])
  {
    var base := LookupKey(serialnumber, channelId);
    var k1 := SensorLookupKey(serialnumber, channelId, [(p1, dp1)]);
    var k2 := SensorLookupKey(serialnumber, channelId, [(p2, dp2)]);
    assert k1[|base| + 1..] == dp1;
    assert k2[|base| + 1..] == dp2;
  }

  class Sensor {
    const device: Device
    const sensorType: Option<string>
    var state: Option<string>

    /** FahSensor.__init__: the type comes from the resolved datapoints and
        is appended to the name; the callback argument is not passed on. */
    constructor(a: DeviceArgs)
      ensures sensorType == SensorTypeFromPairingIds(a.datapoints)
      ensures fresh(device) && device.Made(a.(name := SensorName(a.name, sensorType), deviceUpdatedCb := None))
      ensures state == None
    {
      sensorType := SensorTypeFromPairingIds(a.datapoints);
      device := new Device(a.(name := SensorName(a.name, SensorTypeFromPairingIds(a.datapoints)), deviceUpdatedCb := None));
      state := None;
    }

    /** Whether a datapoint is one of the sensor's measured ones. */
    predicate Measures(dp: string)
    {
      exists p :: p in SENSOR_TYPES && device.Dp(p) == Some(dp)
    }

    /** update_datapoint: a measured datapoint's value is stored as
        reported; any other datapoint changes nothing. */
    method UpdateDatapoint(dp: string, value: Option<string>)
      modifies this
      ensures state == if Measures(dp) then value else old(state)
    {
      if device.Dp(PID_MEASURED_BRIGHTNESS) == Some(dp) || device.Dp(PID_RAIN_ALARM) == Some(dp)
         || device.Dp(PID_OUTDOOR_TEMPERATURE) == Some(dp) || device.Dp(PID_WIND_SPEED) == Some(dp)
         || device.Dp(PID_MEASURED_HUMIDITY) == Some(dp) || device.Dp(PID_MEASURED_VOC) == Some(dp)
         || device.Dp(PID_MEASURED_CO2) == Some(dp) {
        state := value;
      }
    }

    function LookupKey(): string
    {
      SensorLookupKey(device.serialnumber, device.channelId, device.datapoints)
    }
  }
}
