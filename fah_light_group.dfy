/** A group of lights switched together
    (custom_components/freeathome/fah/devices/fah_light_group.py). A group
    is commanded through both its info datapoints and its switch or dimming
    datapoints, and reports through the SysAP info datapoints. */
module FahLightGroup {
  import opened Wrappers
  import opened PyValue
  import opened Const
  import opened FahDevice

  /** pairing_ids: light groups only. */
  function PairingIdsFor(functionId: Option<int>): (r: Option<PairingIds>)
    ensures r.Some? <==> functionId.Some? && functionId.value in FUNCTION_IDS_LIGHT_GROUP
    ensures r.Some? ==>
              r.value == PairingIds([PID_INFO_ON_OFF, PID_INFO_ACTUAL_DIMMING_VALUE],
                                    [PID_SYSAP_INFO_ON_OFF, PID_SWITCH_ON_OFF, PID_SYSAP_INFO_ACTUAL_DIMMING_VALUE,
                                     PID_ABSOLUTE_SET_VALUE])
  {
    if functionId.Some? && functionId.value in FUNCTION_IDS_LIGHT_GROUP then
      Some(PairingIds([PID_INFO_ON_OFF, PID_INFO_ACTUAL_DIMMING_VALUE],
                      [PID_SYSAP_INFO_ON_OFF, PID_SWITCH_ON_OFF, PID_SYSAP_INFO_ACTUAL_DIMMING_VALUE,
                       PID_ABSOLUTE_SET_VALUE]))
    else None
  }

  datatype Target = OnOff | Brightness | Unknown

  class LightGroup {
    const device: Device
    var state: Option<bool>
    var brightness: Value

    constructor(a: DeviceArgs)
      ensures fresh(device) && device.Made(a) && state == None && brightness == NoneValue
    {
      device := new Device(a);
      state, brightness := None, NoneValue;
    }

    predicate IsDimmer() { device.Has(PID_ABSOLUTE_SET_VALUE) }

    /** Whether turn_on re-sends the brightness: a dimmer group does when it
        was already on, or when it was off and its brightness is above 0.
        The light group's file repeats the rule of FahLight.Light, so the
        model repeats it here too. */
    function ResendsBrightness(oldState: Option<bool>): (r: Result<bool, PyError>)
      reads this
      ensures !IsDimmer() ==> r == Ok(false)
      ensures IsDimmer() && oldState == Some(true) ==> r == Ok(true)
      ensures r.Err? ==> IsDimmer() && oldState != Some(true) && ToInt(brightness).Err?
    {
      if !IsDimmer() then Ok(false)
      else if oldState != Some(true) then
        var b := ToInt(brightness);
        if b.Err? then Err(b.error) else Ok(b.value > 0)
      else Ok(true)
    }

    /** Sends value to the info on/off datapoint, then to the switch
        datapoint; a KeyError stops at the first one missing. */
    method SendOnOff(value: string) returns (r: Outcome<PyError>)
      modifies device
      ensures r.Pass? <==> device.Has(PID_INFO_ON_OFF) && device.Has(PID_SWITCH_ON_OFF)
      ensures r.Fail? ==> r.error == KeyError
      ensures device.commands == old(device.commands) + device.SendsTo(PID_INFO_ON_OFF, value)
                                 + (if device.Has(PID_INFO_ON_OFF) then device.SendsTo(PID_SWITCH_ON_OFF, value) else [])
      ensures device.callbacks == old(device.callbacks) && device.invoked == old(device.invoked)
    {
      r := device.SendTo(PID_INFO_ON_OFF, value);
      if r.Pass? {
        r := device.SendTo(PID_SWITCH_ON_OFF, value);
      }
    }

    /** turn_on: '1' to the info and then the switch datapoint, and the state
        is on; then a dimmer group re-sends its brightness to the info
        dimming datapoint and then the absolute set value. */
    method TurnOn() returns (r: Outcome<PyError>)
      modifies this, device
      ensures var started := device.Has(PID_INFO_ON_OFF) && device.Has(PID_SWITCH_ON_OFF);
              && (!started ==> r == Fail(KeyError) && state == old(state)
                               && device.commands == old(device.commands) + device.SendsTo(PID_INFO_ON_OFF, "1"))
              && (started ==> state == Some(true))
              && (started && ResendsBrightness(old(state)).Err? ==>
                    r == Fail(ResendsBrightness(old(state)).error)
                    && device.commands == old(device.commands) + device.SendsTo(PID_INFO_ON_OFF, "1")
                                          + device.SendsTo(PID_SWITCH_ON_OFF, "1"))
              && (started && ResendsBrightness(old(state)).Ok? ==>
                    (r.Pass? <==> !ResendsBrightness(old(state)).value || device.Has(PID_INFO_ACTUAL_DIMMING_VALUE))
                    && device.commands == old(device.commands) + device.SendsTo(PID_INFO_ON_OFF, "1")
                                          + device.SendsTo(PID_SWITCH_ON_OFF, "1")
                                          + (if ResendsBrightness(old(state)).value
                                             then device.SendsTo(PID_INFO_ACTUAL_DIMMING_VALUE, ToStr(brightness))
                                                  + (if device.Has(PID_INFO_ACTUAL_DIMMING_VALUE)
                                                     then device.SendsTo(PID_ABSOLUTE_SET_VALUE, ToStr(brightness))
                                                     else [])
                                             else []))
      ensures brightness == old(brightness)
      ensures device.callbacks == old(device.callbacks) && device.invoked == old(device.invoked)
    {
      var oldState := state;
      r := SendOnOff("1");
      if r.Fail? {
        return;
      }
      state := Some(true);
      var resend := ResendsBrightness(oldState);
      if resend.Err? {
        return Fail(resend.error);
      }
      if resend.value {
        r := device.SendTo(PID_INFO_ACTUAL_DIMMING_VALUE, ToStr(brightness));
        if r.Pass? {
          r := device.SendTo(PID_ABSOLUTE_SET_VALUE, ToStr(brightness));
        }
      }
    }

    /** turn_off: '0' to the info and then the switch datapoint, then the
        state is off. */
    method TurnOff() returns (r: Outcome<PyError>)
      modifies this, device
      ensures r.Pass? <==> device.Has(PID_INFO_ON_OFF) && device.Has(PID_SWITCH_ON_OFF)
      ensures device.commands == old(device.commands) + device.SendsTo(PID_INFO_ON_OFF, "0")
                                 + (if device.Has(PID_INFO_ON_OFF) then device.SendsTo(PID_SWITCH_ON_OFF, "0") else [])
      ensures state == if r.Pass? then Some(false) else old(state)
      ensures brightness == old(brightness)
      ensures device.callbacks == old(device.callbacks) && device.invoked == old(device.invoked)
    {
      r := SendOnOff("0");
      if r.Pass? {
        state := Some(false);
      }
    }

    /** set_brightness: only a dimmer group keeps a brightness. */
    method SetBrightness(value: int)
      modifies this
      ensures brightness == if IsDimmer() then Int(value) else old(brightness)
      ensures state == old(state)
    {
      if IsDimmer() {
        brightness := Int(value);
      }
    }

    function TargetOf(dp: string): Target
    {
      if device.Dp(PID_SYSAP_INFO_ON_OFF) == Some(dp) then OnOff
      else if device.Dp(PID_SYSAP_INFO_ACTUAL_DIMMING_VALUE) == Some(dp) then Brightness
      else Unknown
    }

    /** update_datapoint: the SysAP on/off report is on exactly for '1', the
        SysAP dimming report is stored as reported, anything else changes
        nothing. */
    method UpdateDatapoint(dp: string, value: Option<string>)
      modifies this
      ensures state == if TargetOf(dp) == OnOff then Some(value == Some("1")) else old(state)
      ensures brightness == if TargetOf(dp) == Brightness then OfText(value) else old(brightness)
    {
      match TargetOf(dp)
      case OnOff =>
        state := Some(value == Some("1"));
      case Brightness =>
        brightness := OfText(value);
      case Unknown =>
    }
  }
}
