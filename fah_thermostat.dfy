/** A room temperature controller
    (freeathome/fah/devices/fah_thermostat.py). Its pairing ids are the
    controller's; the function ids are those of freeathome/fah/const.py. */
module FahThermostat {
  import opened Wrappers
  import opened PyValue
  import opened Const
  import LegacyConst
  import opened FahDevice

  /** pairing_ids: room temperature controllers only, with three inputs and
      five outputs. */
  function PairingIdsFor(functionId: Option<int>): (r: Option<PairingIds>)
    ensures r.Some? <==> functionId.Some? && functionId.value in LegacyConst.FUNCTION_IDS_ROOM_TEMPERATURE_CONTROLLER
    ensures r.Some? ==>
              r.value.inputs == [PID_ECO_MODE_ON_OFF_REQUEST, PID_CONTROLLER_ON_OFF_REQUEST, PID_ABSOLUTE_SETPOINT_TEMPERATURE]
              && r.value.outputs == [PID_SET_VALUE_TEMPERATURE, PID_CONTROLLER_ON_OFF, PID_STATUS_INDICATION,
                                     PID_MEASURED_TEMPERATURE, PID_HEATING_DEMAND]
  {
    if functionId.Some? && functionId.value in LegacyConst.FUNCTION_IDS_ROOM_TEMPERATURE_CONTROLLER then
      Some(PairingIds([PID_ECO_MODE_ON_OFF_REQUEST, PID_CONTROLLER_ON_OFF_REQUEST, PID_ABSOLUTE_SETPOINT_TEMPERATURE],
                      [PID_SET_VALUE_TEMPERATURE, PID_CONTROLLER_ON_OFF, PID_STATUS_INDICATION,
                       PID_MEASURED_TEMPERATURE, PID_HEATING_DEMAND]))
    else None
  }

  /** int(v) & 0x04 == 0x04, for Python's unbounded two's-complement ints. */
  predicate EcoBit(i: int)
  {
    (i / 4) % 2 == 1
  }

  /** The ecomode setter: eco mode is on exactly when bit 0x04 of the
      reported status is set; a status that is not a number raises. */
  function EcoModeOf(value: Option<string>): (r: Result<bool, PyError>)
    ensures r.Ok? <==> ToInt(OfText(value)).Ok?
    ensures r.Ok? ==> r.value == EcoBit(ToInt(OfText(value)).value)
  {
    var i := ToInt(OfText(value));
    if i.Err? then Err(i.error) else Ok(EcoBit(i.value))
  }

  /** The thermostat tests: status 36 (0b100100) is eco mode, 33 (0b100001)
      is not. */
  lemma EcoModeExamples()
    ensures EcoModeOf(Some("36")) == Ok(true) && EcoModeOf(Some("33")) == Ok(false)
  {
    hide ParseInt;
    ParseIntToString(36);
    assert IntToString(36) == "36";
    ParseIntToString(33);
    assert IntToString(33) == "33";
  }

  /** Bit 0x04 is set exactly when the status modulo 8 is 4 to 7, for
      negative statuses as well. */
  lemma EcoBitOfRemainder(i: int)
    ensures EcoBit(i) <==> 4 <= i % 8
  {
    var q, r := i / 8, i % 8;
    assert i == 8 * q + r && 0 <= r < 8;
    assert i / 4 == 2 * q + r / 4;
  }

  /** Which attribute a datapoint report goes to, after its pairing id. */
  datatype Target = SetValue | ControllerOnOff | StatusIndication | MeasuredTemperature | HeatingDemand | Unknown

  class Thermostat {
    const device: Device
    var currentTemperature: Option<string>
    var currentActuator: Option<string>
    var targetTemperature: Option<string>
    /** None until the first report sets it. */
    var state: Option<bool>
    var ecoMode: Option<bool>

    constructor(a: DeviceArgs)
      ensures fresh(device) && device.Made(a)
      ensures currentTemperature == None && currentActuator == None && targetTemperature == None
      ensures state == None && ecoMode == None
    {
      device := new Device(a);
      currentTemperature, currentActuator, targetTemperature, state, ecoMode := None, None, None, None, None;
    }

    /** turn_on: eco mode off ('0' to the eco request), then the controller
        on ('1' to the controller request), in that order; a KeyError stops
        at the first datapoint that is missing. */
    method TurnOn() returns (r: Outcome<PyError>)
      modifies device
      ensures r.Pass? <==> device.Has(PID_ECO_MODE_ON_OFF_REQUEST) && device.Has(PID_CONTROLLER_ON_OFF_REQUEST)
      ensures device.commands == old(device.commands) + device.SendsTo(PID_ECO_MODE_ON_OFF_REQUEST, "0")
                                 + if device.Has(PID_ECO_MODE_ON_OFF_REQUEST)
                                   then device.SendsTo(PID_CONTROLLER_ON_OFF_REQUEST, "1") else []
      ensures device.callbacks == old(device.callbacks) && device.invoked == old(device.invoked)
    {
      r := device.SendTo(PID_ECO_MODE_ON_OFF_REQUEST, "0");
      if r.Pass? {
        r := device.SendTo(PID_CONTROLLER_ON_OFF_REQUEST, "1");
      }
    }

    /** turn_off: '0' to the controller request. */
    method TurnOff() returns (r: Outcome<PyError>)
      modifies device
      ensures r.Pass? <==> device.Has(PID_CONTROLLER_ON_OFF_REQUEST)
      ensures device.commands == old(device.commands) + device.SendsTo(PID_CONTROLLER_ON_OFF_REQUEST, "0")
      ensures device.callbacks == old(device.callbacks) && device.invoked == old(device.invoked)
    {
      r := device.SendTo(PID_CONTROLLER_ON_OFF_REQUEST, "0");
    }

    /** eco_mode: '1' to the eco request. */
    method EcoMode() returns (r: Outcome<PyError>)
      modifies device
      ensures r.Pass? <==> device.Has(PID_ECO_MODE_ON_OFF_REQUEST)
      ensures device.commands == old(device.commands) + device.SendsTo(PID_ECO_MODE_ON_OFF_REQUEST, "1")
      ensures device.callbacks == old(device.callbacks) && device.invoked == old(device.invoked)
    {
      r := device.SendTo(PID_ECO_MODE_ON_OFF_REQUEST, "1");
    }

    function TargetOf(dp: string): Target
    {
      if device.Dp(PID_SET_VALUE_TEMPERATURE) == Some(dp) then SetValue
      else if device.Dp(PID_CONTROLLER_ON_OFF) == Some(dp) then ControllerOnOff
      else if device.Dp(PID_STATUS_INDICATION) == Some(dp) then StatusIndication
      else if device.Dp(PID_MEASURED_TEMPERATURE) == Some(dp) then MeasuredTemperature
      else if device.Dp(PID_HEATING_DEMAND) == Some(dp) then HeatingDemand
      else Unknown
    }

    /** update_datapoint: exactly one attribute per datapoint the thermostat
        resolved, nothing for any other; the on/off state goes through the
        state setter ('1' is on) and the status through the ecomode setter,
        which raises, changing nothing, for a status that is not a number. */
    method UpdateDatapoint(dp: string, value: Option<string>) returns (r: Outcome<PyError>)
      modifies this
      ensures r.Fail? <==> TargetOf(dp) == StatusIndication && EcoModeOf(value).Err?
      ensures r.Fail? ==> r.error == EcoModeOf(value).error
      ensures targetTemperature == if TargetOf(dp) == SetValue then value else old(targetTemperature)
      ensures state == if TargetOf(dp) == ControllerOnOff then Some(value == Some("1")) else old(state)
      ensures ecoMode == if TargetOf(dp) == StatusIndication && r.Pass? then Some(EcoModeOf(value).value) else old(ecoMode)
      ensures currentTemperature == if TargetOf(dp) == MeasuredTemperature then value else old(currentTemperature)
      ensures currentActuator == if TargetOf(dp) == HeatingDemand then value else old(currentActuator)
    {
      r := Pass;
      match TargetOf(dp)
      case SetValue =>
        targetTemperature := value;
      case ControllerOnOff =>
        state := Some(value == Some("1"));
      case StatusIndication =>
        var e := EcoModeOf(value);
        if e.Err? {
          return Fail(e.error);
        }
        ecoMode := Some(e.value);
      case MeasuredTemperature =>
        currentTemperature := value;
      case HeatingDemand =>
        currentActuator := value;
      case Unknown =>
    }
  }
}
