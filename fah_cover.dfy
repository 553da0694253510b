/** A blind, shutter, attic-window or awning actuator channel
    (custom_components/freeathome/fah/devices/fah_cover.py). free@home counts
    a position from open (0) to closed (100), Home Assistant the other way
    round, so positions cross the boundary as abs(100 - p). */
module FahCover {
  import opened Wrappers
  import opened PyValue
  import opened Const
  import opened FahDevice

  /** What a forced-position command sends. */
  const FORCE_POSITION_COMMANDS: map<string, string> := map["none" := "1", "open" := "2", "closed" := "3"]

  /** How a reported forced position reads. */
  const FORCE_POSITION_STATES: map<string, string> := map["0" := "none", "2" := "open", "3" := "closed"]

  const BLIND_INPUTS: seq<int> :=
    [PID_MOVE_UP_DOWN, PID_ADJUST_UP_DOWN, PID_SET_ABSOLUTE_POSITION_BLINDS, PID_FORCE_POSITION_BLIND]
  const BLIND_OUTPUTS: seq<int> :=
    [PID_INFO_MOVE_UP_DOWN, PID_CURRENT_ABSOLUTE_POSITION_BLINDS_PERCENTAGE, PID_FORCE_POSITION_INFO]

  predicate InAny(functionId: Option<int>, ids: set<int>)
  {
    functionId.Some? && functionId.value in ids
  }

  /** pairing_ids: blinds, attic windows and awnings get the four blind
      inputs and three blind outputs; a shutter gets the slats datapoints on
      top, each right after its blind counterpart; anything else is not a
      cover. */
  function PairingIdsFor(functionId: Option<int>): (r: Option<PairingIds>)
    ensures r.Some? <==> InAny(functionId, FUNCTION_IDS_BLIND_ACTUATOR + FUNCTION_IDS_ATTIC_WINDOW_ACTUATOR
                                           + FUNCTION_IDS_AWNING_ACTUATOR + FUNCTION_IDS_SHUTTER_ACTUATOR)
    ensures InAny(functionId, FUNCTION_IDS_BLIND_ACTUATOR + FUNCTION_IDS_ATTIC_WINDOW_ACTUATOR
                              + FUNCTION_IDS_AWNING_ACTUATOR) ==>
              r == Some(PairingIds(BLIND_INPUTS, BLIND_OUTPUTS))
    ensures r.Some? && r.value != PairingIds(BLIND_INPUTS, BLIND_OUTPUTS) ==>
              InAny(functionId, FUNCTION_IDS_SHUTTER_ACTUATOR)
              && r.value.inputs == BLIND_INPUTS[..3] + [PID_SET_ABSOLUTE_POSITION_SLATS] + BLIND_INPUTS[3..]
              && r.value.outputs == BLIND_OUTPUTS[..2] + [PID_CURRENT_ABSOLUTE_POSITION_SLATS_PERCENTAGE] + BLIND_OUTPUTS[2..]
  {
    if InAny(functionId, FUNCTION_IDS_BLIND_ACTUATOR) || InAny(functionId, FUNCTION_IDS_ATTIC_WINDOW_ACTUATOR)
       || InAny(functionId, FUNCTION_IDS_AWNING_ACTUATOR) then
      Some(PairingIds(BLIND_INPUTS, BLIND_OUTPUTS))
    else if InAny(functionId, FUNCTION_IDS_SHUTTER_ACTUATOR) then
      Some(PairingIds(
        [PID_MOVE_UP_DOWN, PID_ADJUST_UP_DOWN, PID_SET_ABSOLUTE_POSITION_BLINDS, PID_SET_ABSOLUTE_POSITION_SLATS,
         PID_FORCE_POSITION_BLIND],
        [PID_INFO_MOVE_UP_DOWN, PID_CURRENT_ABSOLUTE_POSITION_BLINDS_PERCENTAGE,
         PID_CURRENT_ABSOLUTE_POSITION_SLATS_PERCENTAGE, PID_FORCE_POSITION_INFO]))
    else None
  }

  /** abs(100 - p): a position on one side's scale, on the other's. */
  function Mirror(p: int): nat
  {
    if p <= 100 then 100 - p else p - 100
  }

  /** str(abs(100 - position)): what a position command sends. */
  function PositionText(position: int): string
  {
    IntToString(Mirror(position))
  }

  /** str(abs(100 - int(float(value)))): how a reported position is stored;
      a TypeError for an empty value, a ValueError for one that is not a
      number. */
  function ReportedPosition(value: Option<string>): (r: Result<string, PyError>)
    ensures r.Ok? <==> ToInt(OfText(value)).Ok?
    ensures r.Ok? ==> ParseInt(r.value) == Some(Mirror(ToInt(OfText(value)).value))
  {
    var i := ToInt(OfText(value));
    if i.Err? then Err(i.error)
    else
      ParseIntToString(Mirror(i.value));
      Ok(IntToString(Mirror(i.value)))
  }

  /** A position Home Assistant sets, once the actuator reports it back,
      reads as the same position: the two mirrorings cancel on 0..100. */
  lemma PositionReportedBack(position: int)
    requires 0 <= position <= 100
    ensures ReportedPosition(Some(PositionText(position))) == Ok(IntToString(position))
  {
    ParseIntToString(Mirror(position));
  }

  /** The commands in the cover tests: position 41 is sent as "59", tilt 34
      as "66". */
  lemma PositionCommandExamples()
    ensures PositionText(41) == "59" && PositionText(34) == "66"
  {
  }

  /** The "closed" report of the cover tests (value 100) stores position "0";
      the "open" one (value 64) stores "36". */
  lemma ReportedPositionExamples()
    ensures ReportedPosition(Some("100")) == Ok("0")
    ensures ReportedPosition(Some("64")) == Ok("36")
  {
    hide ParseInt;
    ParseIntToString(100);
    assert IntToString(100) == "100";
    ParseIntToString(64);
    assert IntToString(64) == "64";
    assert IntToString(36) == "36";
  }

  /** FORCE_POSITION_STATES.get(forced): None for anything else. */
  function ForcedState(forced: Option<string>): (r: Option<string>)
    ensures r.Some? <==> forced.Some? && forced.value in {"0", "2", "3"}
  {
    if forced.Some? && forced.value in FORCE_POSITION_STATES then Some(FORCE_POSITION_STATES[forced.value]) else None
  }

  /** Forcing "open" or "closed" reads back as what was forced, but the
      command for "none" ("1") is not the state that reads as "none" ("0"). */
  lemma ForcedCommandReadBack(forced: string)
    requires forced in FORCE_POSITION_COMMANDS
    ensures ForcedState(Some(FORCE_POSITION_COMMANDS[forced])) == Some(forced) <==> forced != "none"
  {
  }

  /** Which attribute a reported datapoint sets: the first match of the
      update_datapoint chain. */
  datatype Target = MoveState | Position | TiltPosition | ForcedPosition | Unknown

  class Cover {
    const device: Device
    var state: Option<string>
    var position: Option<string>
    var tiltPosition: Option<string>
    var forcedPosition: Option<string>

    constructor(a: DeviceArgs)
      ensures fresh(device) && device.Made(a)
      ensures state == None && position == None && tiltPosition == None && forcedPosition == None
    {
      device := new Device(a);
      state, position, tiltPosition, forcedPosition := None, None, None, None;
    }

    predicate SupportsPosition() { device.Has(PID_SET_ABSOLUTE_POSITION_BLINDS) }
    predicate SupportsTiltPosition() { device.Has(PID_SET_ABSOLUTE_POSITION_SLATS) }
    predicate SupportsStop() { device.Has(PID_ADJUST_UP_DOWN) }
    predicate SupportsForcedPosition() { device.Has(PID_FORCE_POSITION_BLIND) }

    /** is_cover_closed: unknown (None) without position support, otherwise
        whether the stored position is 0; int() of a missing position raises. */
    function IsCoverClosed(): (r: Result<Option<bool>, PyError>)
      reads this
      ensures r == Ok(None) <==> !SupportsPosition()
      ensures r == Ok(Some(true)) <==> SupportsPosition() && ToInt(OfText(position)) == Ok(0)
      ensures r.Err? <==> SupportsPosition() && ToInt(OfText(position)).Err?
    {
      if !SupportsPosition() then Ok(None)
      else
        var i := ToInt(OfText(position));
        if i.Err? then Err(i.error) else Ok(Some(i.value == 0))
    }

    predicate IsCoverOpening() reads this { state == Some("2") }
    predicate IsCoverClosing() reads this { state == Some("3") }

    /** get_cover_position: the stored position as a number, or None without
        position support. */
    function GetCoverPosition(): (r: Result<Option<int>, PyError>)
      reads this
      ensures r == Ok(None) <==> !SupportsPosition()
      ensures SupportsPosition() ==> r == (var i := ToInt(OfText(position)); if i.Ok? then Ok(Some(i.value)) else Err(i.error))
    {
      if !SupportsPosition() then Ok(None)
      else
        var i := ToInt(OfText(position));
        if i.Ok? then Ok(Some(i.value)) else Err(i.error)
    }

    /** get_cover_tilt_position: as get_cover_position, for the slats. */
    function GetCoverTiltPosition(): (r: Result<Option<int>, PyError>)
      reads this
      ensures r == Ok(None) <==> !SupportsTiltPosition()
      ensures SupportsTiltPosition() ==>
                r == (var i := ToInt(OfText(tiltPosition)); if i.Ok? then Ok(Some(i.value)) else Err(i.error))
    {
      if !SupportsTiltPosition() then Ok(None)
      else
        var i := ToInt(OfText(tiltPosition));
        if i.Ok? then Ok(Some(i.value)) else Err(i.error)
    }

    /** get_forced_cover_position: the reported forced position by name, or
        None without forced-position support. */
    function GetForcedCoverPosition(): (r: Option<string>)
      reads this
      ensures r.Some? <==> SupportsForcedPosition() && ForcedState(forcedPosition).Some?
      ensures r.Some? ==> r.value in FORCE_POSITION_COMMANDS
    {
      if SupportsForcedPosition() then ForcedState(forcedPosition) else None
    }

    /** device_class, by function id: attic windows are "window", awnings
        "awning", shutters "shutter"; every other cover has no class. */
    function DeviceClass(): (r: Option<string>)
      ensures r == Some("window") <==> InAny(device.functionId, FUNCTION_IDS_ATTIC_WINDOW_ACTUATOR)
      ensures r == Some("shutter") <==> InAny(device.functionId, FUNCTION_IDS_SHUTTER_ACTUATOR)
      ensures r.None? <==> !InAny(device.functionId, FUNCTION_IDS_ATTIC_WINDOW_ACTUATOR + FUNCTION_IDS_AWNING_ACTUATOR
                                                   + FUNCTION_IDS_SHUTTER_ACTUATOR)
    {
      if InAny(device.functionId, FUNCTION_IDS_ATTIC_WINDOW_ACTUATOR) then Some("window")
      else if InAny(device.functionId, FUNCTION_IDS_AWNING_ACTUATOR) then Some("awning")
      else if InAny(device.functionId, FUNCTION_IDS_SHUTTER_ACTUATOR) then Some("shutter")
      else None
    }

    /** set_cover_position: the mirrored position, to the blinds position
        datapoint, only when that datapoint was resolved. */
    method SetCoverPosition(position: int)
      modifies device
      ensures device.commands == old(device.commands) + device.SendsTo(PID_SET_ABSOLUTE_POSITION_BLINDS, PositionText(position))
      ensures device.callbacks == old(device.callbacks) && device.invoked == old(device.invoked)
    {
      if SupportsPosition() {
        var _ := device.SendTo(PID_SET_ABSOLUTE_POSITION_BLINDS, PositionText(position));
      }
    }

    /** set_cover_tilt_position: the mirrored position, to the slats
        position datapoint, only when that datapoint was resolved. */
    method SetCoverTiltPosition(tiltPosition: int)
      modifies device
      ensures device.commands == old(device.commands) + device.SendsTo(PID_SET_ABSOLUTE_POSITION_SLATS, PositionText(tiltPosition))
      ensures device.callbacks == old(device.callbacks) && device.invoked == old(device.invoked)
    {
      if SupportsTiltPosition() {
        var _ := device.SendTo(PID_SET_ABSOLUTE_POSITION_SLATS, PositionText(tiltPosition));
      }
    }

    /** set_forced_cover_position: the command for none, open or closed;
        nothing for any other name or without the force datapoint. */
    method SetForcedCoverPosition(forced: string)
      modifies device
      ensures device.commands == old(device.commands)
                                 + if forced in FORCE_POSITION_COMMANDS
                                   then device.SendsTo(PID_FORCE_POSITION_BLIND, FORCE_POSITION_COMMANDS[forced]) else []
      ensures device.callbacks == old(device.callbacks) && device.invoked == old(device.invoked)
    {
      if SupportsForcedPosition() && forced in FORCE_POSITION_COMMANDS {
        var _ := device.SendTo(PID_FORCE_POSITION_BLIND, FORCE_POSITION_COMMANDS[forced]);
      }
    }

    /** open_cover: '0' to the move datapoint; a KeyError without one. */
    method OpenCover() returns (r: Outcome<PyError>)
      modifies device
      ensures r.Pass? <==> device.Has(PID_MOVE_UP_DOWN)
      ensures device.commands == old(device.commands) + device.SendsTo(PID_MOVE_UP_DOWN, "0")
      ensures device.callbacks == old(device.callbacks) && device.invoked == old(device.invoked)
    {
      r := device.SendTo(PID_MOVE_UP_DOWN, "0");
    }

    /** close_cover: '1' to the move datapoint; a KeyError without one. */
    method CloseCover() returns (r: Outcome<PyError>)
      modifies device
      ensures r.Pass? <==> device.Has(PID_MOVE_UP_DOWN)
      ensures device.commands == old(device.commands) + device.SendsTo(PID_MOVE_UP_DOWN, "1")
      ensures device.callbacks == old(device.callbacks) && device.invoked == old(device.invoked)
    {
      r := device.SendTo(PID_MOVE_UP_DOWN, "1");
    }

    /** stop_cover: '1' to the adjust datapoint, only while the cover is
        reported opening or closing and only when that datapoint exists. */
    method StopCover()
      modifies device
      ensures device.commands == old(device.commands)
                                 + if IsCoverOpening() || IsCoverClosing() then device.SendsTo(PID_ADJUST_UP_DOWN, "1") else []
      ensures device.callbacks == old(device.callbacks) && device.invoked == old(device.invoked)
    {
      if SupportsStop() && (state == Some("2") || state == Some("3")) {
        var _ := device.SendTo(PID_ADJUST_UP_DOWN, "1");
      }
    }

    /** The branch of update_datapoint a datapoint takes. */
    function TargetOf(dp: string): Target
    {
      if device.Dp(PID_INFO_MOVE_UP_DOWN) == Some(dp) then MoveState
      else if device.Dp(PID_CURRENT_ABSOLUTE_POSITION_BLINDS_PERCENTAGE) == Some(dp) then Position
      else if device.Dp(PID_CURRENT_ABSOLUTE_POSITION_SLATS_PERCENTAGE) == Some(dp) then TiltPosition
      else if device.Dp(PID_FORCE_POSITION_INFO) == Some(dp) then ForcedPosition
      else Unknown
    }

    /** update_datapoint: the move state and the forced position are stored
        as reported, a position mirrored; a datapoint the cover did not
        resolve changes nothing, and at most one attribute changes. A
        reported position that is not a number raises, changing nothing. */
    method UpdateDatapoint(dp: string, value: Option<string>) returns (r: Outcome<PyError>)
      modifies this
      ensures r.Fail? <==> TargetOf(dp) in {Position, TiltPosition} && ReportedPosition(value).Err?
      ensures r.Fail? ==> r.error == ReportedPosition(value).error
      ensures state == if TargetOf(dp) == MoveState then value else old(state)
      ensures position == if TargetOf(dp) == Position && r.Pass? then Some(ReportedPosition(value).value) else old(position)
      ensures tiltPosition == if TargetOf(dp) == TiltPosition && r.Pass? then Some(ReportedPosition(value).value)
                              else old(tiltPosition)
      ensures forcedPosition == if TargetOf(dp) == ForcedPosition then value else old(forcedPosition)
    {
      r := Pass;
      match TargetOf(dp)
      case MoveState =>
        state := value;
      case Position =>
        var p := ReportedPosition(value);
        if p.Err? {
          return Fail(p.error);
        }
        position := Some(p.value);
      case TiltPosition =>
        var p := ReportedPosition(value);
        if p.Err? {
          return Fail(p.error);
        }
        tiltPosition := Some(p.value);
      case ForcedPosition =>
        forcedPosition := value;
      case Unknown =>
    }
  }
}
