/** A scene stored on the SysAP (freeathome/fah/devices/fah_light_scene.py);
    the function ids are those of freeathome/fah/const.py. */
module FahLightScene {
  import opened Wrappers
  import opened Const
  import LegacyConst
  import opened FahDevice

  /** pairing_ids: scenes only, reporting through scene control. */
  function PairingIdsFor(functionId: Option<int>): (r: Option<PairingIds>)
    ensures r.Some? <==> functionId.Some? && functionId.value in LegacyConst.FUNCTION_IDS_SCENE
    ensures r.Some? ==> r.value == PairingIds([], [PID_SCENE_CONTROL])
  {
    if functionId.Some? && functionId.value in LegacyConst.FUNCTION_IDS_SCENE then
      Some(PairingIds([], [PID_SCENE_CONTROL]))
    else None
  }

  class LightScene {
    const device: Device
    var state: Option<string>

    constructor(a: DeviceArgs)
      ensures fresh(device) && device.Made(a) && state == None
    {
      device := new Device(a);
      state := None;
    }

    /** activate: '1' to the fixed datapoint odp0000, whatever datapoints
        were resolved. */
    method Activate()
      modifies device
      ensures device.commands == old(device.commands) + [Command(device.serialnumber, device.channelId, "odp0000", "1")]
      ensures device.callbacks == old(device.callbacks) && device.invoked == old(device.invoked)
    {
      device.SetDatapoint("odp0000", "1");
    }

    /** update_datapoint: the scene-control report is stored as reported;
        any other datapoint changes nothing. */
    method UpdateDatapoint(dp: string, value: Option<string>)
      modifies this
      ensures state == if device.Dp(PID_SCENE_CONTROL) == Some(dp) then value else old(state)
    {
      if device.Dp(PID_SCENE_CONTROL) == Some(dp) {
        state := value;
      }
    }
  }
}
