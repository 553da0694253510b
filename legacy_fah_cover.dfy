/** The older blind actuator (freeathome/fah/devices/fah_cover.py): no
    slats, no device class, and every command raises a KeyError when its
    datapoint was not resolved. Position conversion and the forced-position
    maps are those of `FahCover`, which the newer module keeps unchanged. */
module LegacyFahCover {
  import opened Wrappers
  import opened PyValue
  import opened Const
  import LegacyConst
  import opened FahDevice
  import FahCover

  /** pairing_ids: blind actuators of the older function-id list only; the
      ids are the newer module's blind ids. */
  function PairingIdsFor(functionId: Option<int>): (r: Option<PairingIds>)
    ensures r.Some? <==> FahCover.InAny(functionId, LegacyConst.FUNCTION_IDS_BLIND_ACTUATOR)
    ensures r.Some? ==> r.value.inputs == FahCover.BLIND_INPUTS && r.value.outputs == FahCover.BLIND_OUTPUTS
  {
    if FahCover.InAny(functionId, LegacyConst.FUNCTION_IDS_BLIND_ACTUATOR) then
      Some(PairingIds(FahCover.BLIND_INPUTS, FahCover.BLIND_OUTPUTS))
    else None
  }

  /** The branch of update_datapoint a datapoint takes. */
  datatype Target = MoveState | Position | ForcedPosition | Unknown

  class Cover {
    const device: Device
    var state: Option<string>
    var position: Option<string>
    var forcedPosition: Option<string>

    constructor(a: DeviceArgs)
      ensures fresh(device) && device.Made(a)
      ensures state == None && position == None && forcedPosition == None
    {
      device := new Device(a);
      state, position, forcedPosition := None, None, None;
    }

    /** is_cover_closed: whether the stored position reads 0; no guard, so a
        cover with no position yet raises a TypeError. */
    function IsCoverClosed(): (r: Result<bool, PyError>)
      reads this
      ensures r.Ok? <==> ToInt(OfText(position)).Ok?
      ensures r == Ok(true) <==> ToInt(OfText(position)) == Ok(0)
      ensures position.None? ==> r == Err(TypeError)
    {
      var i := ToInt(OfText(position));
      if i.Err? then Err(i.error) else Ok(i.value == 0)
    }

    predicate IsCoverOpening() reads this { state == Some("2") }
    predicate IsCoverClosing() reads this { state == Some("3") }

    /** get_cover_position: int of the stored position, raising as int does. */
    function GetCoverPosition(): (r: Result<int, PyError>)
      reads this
      ensures r.Ok? <==> ToInt(OfText(position)).Ok?
      ensures r.Ok? ==> position.Some? && ParseInt(position.value) == Some(r.value)
    {
      ToInt(OfText(position))
    }

    /** get_forced_cover_position: the name of the reported forced state. */
    function GetForcedCoverPosition(): (r: Option<string>)
      reads this
      ensures r.Some? <==> forcedPosition.Some? && forcedPosition.value in FahCover.FORCE_POSITION_STATES
      ensures r.Some? ==> r.value in FahCover.FORCE_POSITION_COMMANDS
    {
      FahCover.ForcedState(forcedPosition)
    }

    /** set_cover_position: the mirrored position to the set-position
        datapoint; a KeyError without one. */
    method SetCoverPosition(p: int) returns (r: Outcome<PyError>)
      modifies device
      ensures r.Pass? <==> device.Has(PID_SET_ABSOLUTE_POSITION_BLINDS)
      ensures device.commands == old(device.commands) + device.SendsTo(PID_SET_ABSOLUTE_POSITION_BLINDS, FahCover.PositionText(p))
      ensures device.callbacks == old(device.callbacks) && device.invoked == old(device.invoked)
    {
      r := device.SendTo(PID_SET_ABSOLUTE_POSITION_BLINDS, FahCover.PositionText(p));
    }

    /** set_forced_cover_position: the datapoint is looked up first, so a
        missing one raises a KeyError even for an unknown name; with it, the
        command of none, open or closed is sent and any other name is
        ignored. */
    method SetForcedCoverPosition(forced: string) returns (r: Outcome<PyError>)
      modifies device
      ensures r.Pass? <==> device.Has(PID_FORCE_POSITION_BLIND)
      ensures r.Fail? ==> r.error == KeyError
      ensures device.commands == old(device.commands)
                                 + if forced in FahCover.FORCE_POSITION_COMMANDS
                                   then device.SendsTo(PID_FORCE_POSITION_BLIND, FahCover.FORCE_POSITION_COMMANDS[forced]) else []
      ensures device.callbacks == old(device.callbacks) && device.invoked == old(device.invoked)
    {
      if !device.Has(PID_FORCE_POSITION_BLIND) {
        return Fail(KeyError);
      }
      r := Pass;
      if forced in FahCover.FORCE_POSITION_COMMANDS {
        r := device.SendTo(PID_FORCE_POSITION_BLIND, FahCover.FORCE_POSITION_COMMANDS[forced]);
      }
    }

    /** open_cover: '0' to the move datapoint; a KeyError without one. */
    method OpenCover() returns (r: Outcome<PyError>)
      modifies device
      ensures r.Pass? <==> device.Has(PID_MOVE_UP_DOWN)
      ensures device.commands == old(device.commands) + device.SendsTo(PID_MOVE_UP_DOWN, "0")
      ensures device.callbacks == old(device.callbacks) && device.invoked == old(device.invoked)
    {
      r := device.SendTo(PID_MOVE_UP_DOWN, "0");
    }

    /** close_cover: '1' to the move datapoint; a KeyError without one. */
    method CloseCover() returns (r: Outcome<PyError>)
      modifies device
      ensures r.Pass? <==> device.Has(PID_MOVE_UP_DOWN)
      ensures device.commands == old(device.commands) + device.SendsTo(PID_MOVE_UP_DOWN, "1")
      ensures device.callbacks == old(device.callbacks) && device.invoked == old(device.invoked)
    {
      r := device.SendTo(PID_MOVE_UP_DOWN, "1");
    }

    /** stop_cover: only while the cover is reported opening or closing, '1'
        to the adjust datapoint, raising a KeyError when it is missing; a
        cover at rest is left alone without a lookup. */
    method StopCover() returns (r: Outcome<PyError>)
      modifies device
      ensures r.Fail? <==> (IsCoverOpening() || IsCoverClosing()) && !device.Has(PID_ADJUST_UP_DOWN)
      ensures device.commands == old(device.commands)
                                 + if IsCoverOpening() || IsCoverClosing() then device.SendsTo(PID_ADJUST_UP_DOWN, "1") else []
      ensures device.callbacks == old(device.callbacks) && device.invoked == old(device.invoked)
    {
      r := Pass;
      if state == Some("2") || state == Some("3") {
        r := device.SendTo(PID_ADJUST_UP_DOWN, "1");
      }
    }

    function TargetOf(dp: string): Target
    {
      if device.Dp(PID_INFO_MOVE_UP_DOWN) == Some(dp) then MoveState
      else if device.Dp(PID_CURRENT_ABSOLUTE_POSITION_BLINDS_PERCENTAGE) == Some(dp) then Position
      else if device.Dp(PID_FORCE_POSITION_INFO) == Some(dp) then ForcedPosition
      else Unknown
    }

    /** update_datapoint: the move state and the forced position are stored
        as reported, the position mirrored; a reported position that is not
        a number raises, changing nothing, and any other datapoint changes
        nothing. */
    method UpdateDatapoint(dp: string, value: Option<string>) returns (r: Outcome<PyError>)
      modifies this
      ensures r.Fail? <==> TargetOf(dp) == Position && FahCover.ReportedPosition(value).Err?
      ensures r.Fail? ==> r.error == FahCover.ReportedPosition(value).error
      ensures state == if TargetOf(dp) == MoveState then value else old(state)
      ensures position == if TargetOf(dp) == Position && r.Pass? then Some(FahCover.ReportedPosition(value).value) else old(position)
      ensures forcedPosition == if TargetOf(dp) == ForcedPosition then value else old(forcedPosition)
    {
      r := Pass;
      match TargetOf(dp)
      case MoveState =>
        state := value;
      case Position =>
        var p := FahCover.ReportedPosition(value);
        if p.Err? {
          return Fail(p.error);
        }
        position := Some(p.value);
      case ForcedPosition =>
        forcedPosition := value;
      case Unknown =>
    }
  }
}
