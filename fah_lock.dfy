/** A door opener switched from a control panel
    (freeathome/fah/devices/fah_lock.py). */
module FahLock {
  import opened Wrappers
  import opened PyValue
  import opened Const
  import opened FahDevice

  /** pairing_ids: door openers only, one command input and one info output. */
  function PairingIdsFor(functionId: Option<int>): (r: Option<PairingIds>)
    ensures r.Some? <==> functionId.Some? && functionId.value in FUNCTION_IDS_DOOR_OPENER
    ensures r.Some? ==> r.value == PairingIds([PID_LOCK_UNLOCK_COMMAND], [PID_INFO_LOCK_UNLOCK])
  {
    if functionId.Some? && functionId.value in FUNCTION_IDS_DOOR_OPENER then
      Some(PairingIds([PID_LOCK_UNLOCK_COMMAND], [PID_INFO_LOCK_UNLOCK]))
    else None
  }

  class Lock {
    const device: Device
    var state: Option<string>

    constructor(a: DeviceArgs)
      ensures fresh(device) && device.Made(a) && state == None
    {
      device := new Device(a);
      state := None;
    }

    /** lock: '0' to the lock command datapoint; a KeyError without one. */
    method Lock() returns (r: Outcome<PyError>)
      modifies device
      ensures r.Pass? <==> device.Has(PID_LOCK_UNLOCK_COMMAND)
      ensures device.commands == old(device.commands) + device.SendsTo(PID_LOCK_UNLOCK_COMMAND, "0")
      ensures device.callbacks == old(device.callbacks) && device.invoked == old(device.invoked)
    {
      r := device.SendTo(PID_LOCK_UNLOCK_COMMAND, "0");
    }

    /** unlock: '1' to the lock command datapoint; a KeyError without one. */
    method Unlock() returns (r: Outcome<PyError>)
      modifies device
      ensures r.Pass? <==> device.Has(PID_LOCK_UNLOCK_COMMAND)
      ensures device.commands == old(device.commands) + device.SendsTo(PID_LOCK_UNLOCK_COMMAND, "1")
      ensures device.callbacks == old(device.callbacks) && device.invoked == old(device.invoked)
    {
      r := device.SendTo(PID_LOCK_UNLOCK_COMMAND, "1");
    }

    /** update_datapoint: the lock info is stored as reported; any other
        datapoint changes nothing. */
    method UpdateDatapoint(dp: string, value: Option<string>)
      modifies this
      ensures state == if device.Dp(PID_INFO_LOCK_UNLOCK) == Some(dp) then value else old(state)
    {
      if device.Dp(PID_INFO_LOCK_UNLOCK) == Some(dp) {
        state := value;
      }
    }
  }
}
