/** A switching actuator channel
    (custom_components/freeathome/fah/devices/fah_switch.py). */
module FahSwitch {
  import opened Wrappers
  import opened PyValue
  import opened Const
  import opened FahDevice

  /** pairing_ids: a switching actuator is switched through one input and
      reports through one output; no other function is a switch. */
  function PairingIdsFor(functionId: Option<int>): (r: Option<PairingIds>)
    ensures r.Some? <==> functionId.Some? && functionId.value in FUNCTION_IDS_SWITCHING_ACTUATOR
    ensures r.Some? ==> r.value.inputs == [PID_SWITCH_ON_OFF] && r.value.outputs == [PID_INFO_ON_OFF]
  {
    if functionId.Some? && functionId.value in FUNCTION_IDS_SWITCHING_ACTUATOR then
      Some(PairingIds([PID_SWITCH_ON_OFF], [PID_INFO_ON_OFF]))
    else None
  }

  class Switch {
    const device: Device
    /** None until the first command or report. */
    var state: Option<bool>

    constructor(a: DeviceArgs)
      ensures fresh(device) && device.Made(a) && state == None
    {
      device := new Device(a);
      state := None;
    }

    /** turn_on: '1' to the switch datapoint, then the state is on; a
        KeyError, with nothing sent and nothing changed, when that datapoint
        was not resolved. */
    method TurnOn() returns (r: Outcome<PyError>)
      modifies this, device
      ensures r.Pass? <==> device.Has(PID_SWITCH_ON_OFF)
      ensures device.commands == old(device.commands) + device.SendsTo(PID_SWITCH_ON_OFF, "1")
      ensures state == if r.Pass? then Some(true) else old(state)
      ensures device.callbacks == old(device.callbacks) && device.invoked == old(device.invoked)
    {
      r := device.SendTo(PID_SWITCH_ON_OFF, "1");
      if r.Pass? {
        state := Some(true);
      }
    }

    /** turn_off: '0' to the switch datapoint, then the state is off. */
    method TurnOff() returns (r: Outcome<PyError>)
      modifies this, device
      ensures r.Pass? <==> device.Has(PID_SWITCH_ON_OFF)
      ensures device.commands == old(device.commands) + device.SendsTo(PID_SWITCH_ON_OFF, "0")
      ensures state == if r.Pass? then Some(false) else old(state)
      ensures device.callbacks == old(device.callbacks) && device.invoked == old(device.invoked)
    {
      r := device.SendTo(PID_SWITCH_ON_OFF, "0");
      if r.Pass? {
        state := Some(false);
      }
    }

    /** update_datapoint: only the info-on/off datapoint is read, and it
        switches the state on exactly when its value is '1'. */
    method UpdateDatapoint(dp: string, value: Option<string>)
      modifies this
      ensures device.Dp(PID_INFO_ON_OFF) == Some(dp) ==> state == Some(value == Some("1"))
      ensures device.Dp(PID_INFO_ON_OFF) != Some(dp) ==> state == old(state)
    {
      if device.Has(PID_INFO_ON_OFF) && device.Dp(PID_INFO_ON_OFF) == Some(dp) {
        state := Some(value == Some("1"));
      }
    }
  }
}
