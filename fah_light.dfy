/** A switching, dimming, colour-temperature or RGB light channel
    (custom_components/freeathome/fah/devices/fah_light.py). */
module FahLight {
  import opened Wrappers
  import opened PyValue
  import opened Const
  import opened FahDevice
  import PyDict
  import PyBits

  predicate InAny(functionId: Option<int>, ids: set<int>)
  {
    functionId.Some? && functionId.value in ids
  }

  /** pairing_ids, tried in this order: colour, colour temperature, dimmer,
      then a switching actuator unless switches are to become other
      entities (switch_as_x). Every light is switched through
      PID_SWITCH_ON_OFF and reports through PID_INFO_ON_OFF. */
  function PairingIdsFor(functionId: Option<int>, switchAsX: bool): (r: Option<PairingIds>)
    ensures InAny(functionId, FUNCTION_IDS_COLOR_ACTUATOR) ==>
              r == Some(PairingIds([PID_SWITCH_ON_OFF, PID_ABSOLUTE_SET_VALUE, PID_RGB],
                                   [PID_INFO_ON_OFF, PID_INFO_ACTUAL_DIMMING_VALUE, PID_INFO_RGB]))
    ensures !InAny(functionId, FUNCTION_IDS_COLOR_ACTUATOR) && InAny(functionId, FUNCTION_IDS_COLOR_TEMP_ACTUATOR) ==>
              r == Some(PairingIds([PID_SWITCH_ON_OFF, PID_ABSOLUTE_SET_VALUE, PID_COLOR_TEMPERATURE],
                                   [PID_INFO_ON_OFF, PID_INFO_ACTUAL_DIMMING_VALUE, PID_INFO_COLOR_TEMPERATURE]))
    ensures r.Some? <==> InAny(functionId, FUNCTION_IDS_COLOR_ACTUATOR + FUNCTION_IDS_COLOR_TEMP_ACTUATOR
                                           + FUNCTION_IDS_DIMMING_ACTUATOR)
                         || (InAny(functionId, FUNCTION_IDS_SWITCHING_ACTUATOR) && !switchAsX)
    ensures r.Some? ==> |r.value.inputs| > 0 && r.value.inputs[0] == PID_SWITCH_ON_OFF
                        && |r.value.outputs| > 0 && r.value.outputs[0] == PID_INFO_ON_OFF
  {
    if InAny(functionId, FUNCTION_IDS_COLOR_ACTUATOR) then
      Some(PairingIds([PID_SWITCH_ON_OFF, PID_ABSOLUTE_SET_VALUE, PID_RGB],
                      [PID_INFO_ON_OFF, PID_INFO_ACTUAL_DIMMING_VALUE, PID_INFO_RGB]))
    else if InAny(functionId, FUNCTION_IDS_COLOR_TEMP_ACTUATOR) then
      Some(PairingIds([PID_SWITCH_ON_OFF, PID_ABSOLUTE_SET_VALUE, PID_COLOR_TEMPERATURE],
                      [PID_INFO_ON_OFF, PID_INFO_ACTUAL_DIMMING_VALUE, PID_INFO_COLOR_TEMPERATURE]))
    else if InAny(functionId, FUNCTION_IDS_DIMMING_ACTUATOR) then
      Some(PairingIds([PID_SWITCH_ON_OFF, PID_ABSOLUTE_SET_VALUE], [PID_INFO_ON_OFF, PID_INFO_ACTUAL_DIMMING_VALUE]))
    else if InAny(functionId, FUNCTION_IDS_SWITCHING_ACTUATOR) && !switchAsX then
      Some(PairingIds([PID_SWITCH_ON_OFF], [PID_INFO_ON_OFF]))
    else None
  }

  /** parameter_ids: a colour-temperature light asks for its maximum and
      minimum colour temperature; no other light has parameters. */
  function ParameterIdsFor(functionId: Option<int>): (r: Option<seq<int>>)
    ensures r.Some? <==> InAny(functionId, FUNCTION_IDS_COLOR_TEMP_ACTUATOR)
    ensures r.Some? ==> r.value == [PAR_MAXIMUM_COLOR_TEMPERATURE, PAR_MINIMUM_COLOR_TEMPERATURE]
  {
    if InAny(functionId, FUNCTION_IDS_COLOR_TEMP_ACTUATOR) then
      Some([PAR_MAXIMUM_COLOR_TEMPERATURE, PAR_MINIMUM_COLOR_TEMPERATURE])
    else None
  }

  /** (red << 16) + (green << 8) + blue. */
  function PackRgb(red: int, green: int, blue: int): int
  {
    red * 0x1_0000 + green * 0x100 + blue
  }

  /** get_rgb_color: the components of a packed colour, each masked to a
      byte; int & and >> on anything but an int raise TypeError. */
  function UnpackRgb(rgb: Value): (r: Result<(int, int, int), PyError>)
    ensures r.Ok? <==> rgb.Int?
    ensures r.Ok? ==> 0 <= r.value.0 < 256 && 0 <= r.value.1 < 256 && 0 <= r.value.2 < 256
  {
    if rgb.Int? then Ok(((rgb.i / 0x1_0000) % 0x100, (rgb.i / 0x100) % 0x100, rgb.i % 0x100)) else Err(TypeError)
  }

  /** set_rgb_color then get_rgb_color returns the same colour, for
      components in 0..255. */
  lemma RgbRoundTrip(red: int, green: int, blue: int)
    requires 0 <= red < 256 && 0 <= green < 256 && 0 <= blue < 256
    ensures UnpackRgb(Int(PackRgb(red, green, blue))) == Ok((red, green, blue))
  {
    var x := PackRgb(red, green, blue);
    var low := green * 0x100 + blue;
    assert 0 <= low < 0x1_0000;
    assert x / 0x1_0000 == red by {
      DivUnique65536(x, red, low);
    }
    assert x / 0x100 == red * 0x100 + green by {
      DivUnique256(x, red * 0x100 + green, blue);
    }
    assert (red * 0x100 + green) % 0x100 == green by {
      DivUnique256(red * 0x100 + green, red, green);
    }
    assert x % 0x100 == blue by {
      DivUnique256(x, red * 0x100 + green, blue);
    }
  }

  /** Division by 256 has one quotient and one remainder. */
  lemma DivUnique256(x: int, q: int, r: int)
    requires 0 <= r < 0x100 && x == q * 0x100 + r
    ensures x / 0x100 == q && x % 0x100 == r
  {
    var q', r' := x / 0x100, x % 0x100;
    assert x == q' * 0x100 + r' && 0 <= r' < 0x100;
  }

  /** Division by 65536 has one quotient and one remainder. */
  lemma DivUnique65536(x: int, q: int, r: int)
    requires 0 <= r < 0x1_0000 && x == q * 0x1_0000 + r
    ensures x / 0x1_0000 == q
  {
    var q', r' := x / 0x1_0000, x % 0x1_0000;
    assert x == q' * 0x1_0000 + r' && 0 <= r' < 0x1_0000;
  }

  /** set_color_temp as written: int((kelvin - min) / (max - min)) strictly
      between the two limits, a fraction below 1 where a percentage is
      meant; TypeError when a limit is not a number, ZeroDivisionError when
      they are equal. */
  function ColorTempPercentAsWritten(kelvin: int, min: Value, max: Value): (r: Result<int, PyError>)
    ensures min.Int? && max.Int? && min.i < kelvin < max.i ==> r == Ok(0)
    ensures r == Err(ZeroDivisionError) <==>
              Int(kelvin) != min && Int(kelvin) != max && min.Int? && max.Int? && min.i == max.i
  {
    if Int(kelvin) == min then Ok(0)
    else if Int(kelvin) == max then Ok(100)
    else if !min.Int? || !max.Int? then Err(TypeError)
    else if max.i == min.i then Err(ZeroDivisionError)
    else Ok(TruncDiv(kelvin - min.i, max.i - min.i))
  }

  /** get_color_temp as written: int(percent * (max - min) + min). */
  function ColorTempKelvinAsWritten(percent: Value, min: Value, max: Value): (r: Result<Value, PyError>)
    ensures percent.Int? && min.Int? && max.Int? && min.i < max.i && 1 < percent.i < 100 ==>
              r.Ok? && r.value.Int? && r.value.i > max.i
    ensures r.Err? <==> percent != Int(0) && percent != Int(100) && !(percent.Int? && min.Int? && max.Int?)
  {
    if percent == Int(0) then Ok(min)
    else if percent == Int(100) then Ok(max)
    else if percent.Int? && min.Int? && max.Int? then
      ScaledPastMax(percent.i, min.i, max.i);
      Ok(Int(percent.i * (max.i - min.i) + min.i))
    else Err(TypeError)
  }

  /** A percentage above 1 that is used as a factor, not divided by 100,
      takes the result past the upper limit. */
  lemma ScaledPastMax(percent: int, lo: int, hi: int)
    ensures lo < hi && 1 < percent ==> percent * (hi - lo) + lo > hi
  {
    if lo < hi && 1 < percent {
      var d := hi - lo;
      assert percent * d == d + (percent - 1) * d;
      assert (percent - 1) * d > 0;
    }
  }

  /** Halfway between 2700 K and 6500 K, set_color_temp as written stores 0
      percent, and get_color_temp reads 50 percent as 192700 K. */
  lemma ColorTempScaleMissing()
    ensures ColorTempPercentAsWritten(4600, Int(2700), Int(6500)) == Ok(0)
    ensures ColorTempKelvinAsWritten(Int(50), Int(2700), Int(6500)) == Ok(Int(192700))
  {
  }

  /** set_color_temp with the percentage scale: min -> 0, max -> 100, and
      int(100 * (kelvin - min) / (max - min)) in between. */
  function ColorTempPercent(kelvin: int, min: Value, max: Value): (r: Result<int, PyError>)
    ensures min.Int? && max.Int? && min.i < max.i && min.i <= kelvin <= max.i ==> r.Ok? && 0 <= r.value <= 100
    ensures Int(kelvin) == min ==> r == Ok(0)
    ensures Int(kelvin) == max && Int(kelvin) != min ==> r == Ok(100)
  {
    if Int(kelvin) == min then Ok(0)
    else if Int(kelvin) == max then Ok(100)
    else if !min.Int? || !max.Int? then Err(TypeError)
    else if max.i == min.i then Err(ZeroDivisionError)
    else
      PercentBetween(kelvin, min.i, max.i);
      Ok(TruncDiv(100 * (kelvin - min.i), max.i - min.i))
  }

  /** Between the limits, the percentage lies between 0 and 100. */
  lemma PercentBetween(kelvin: int, lo: int, hi: int)
    requires lo != hi
    ensures lo < hi && lo <= kelvin <= hi ==> 0 <= TruncDiv(100 * (kelvin - lo), hi - lo) <= 100
  {
    if lo < hi && lo <= kelvin <= hi {
      var n, d := 100 * (kelvin - lo), hi - lo;
      PyBits.MulLe(kelvin - lo, d, 100);
      var q, r := n / d, n % d;
      assert n == d * q + r && 0 <= r < d;
      if q > 100 {
        PyBits.MulLe(101, q, d);
      }
    }
  }

  /** get_color_temp with the percentage scale: 0 -> min, 100 -> max, and
      int(percent * (max - min) / 100 + min) in between. */
  function ColorTempKelvin(percent: Value, min: Value, max: Value): (r: Result<Value, PyError>)
    ensures percent == Int(0) ==> r == Ok(min)
    ensures percent == Int(100) ==> r == Ok(max)
    ensures percent.Int? && 0 <= percent.i <= 100 && min.Int? && max.Int? && min.i <= max.i ==>
              r.Ok? && r.value.Int? && min.i <= r.value.i <= max.i
  {
    if percent == Int(0) then Ok(min)
    else if percent == Int(100) then Ok(max)
    else if percent.Int? && min.Int? && max.Int? then
      var x := percent.i * (max.i - min.i) + 100 * min.i;
      KelvinBetween(percent.i, min.i, max.i);
      Ok(Int(TruncDiv(x, 100)))
    else Err(TypeError)
  }

  /** The kelvin value of a percentage, times 100, lies between the limits
      times 100, and so does its truncated hundredth. */
  lemma KelvinBetween(p: int, lo: int, hi: int)
    ensures 0 <= p <= 100 && lo <= hi ==>
              var x := p * (hi - lo) + 100 * lo; lo <= TruncDiv(x, 100) <= hi
  {
    if 0 <= p <= 100 && lo <= hi {
      var x := p * (hi - lo) + 100 * lo;
      PyBits.MulLe(0, p, hi - lo);
      PyBits.MulLe(p, 100, hi - lo);
      TruncBetween(x, lo, hi);
    }
  }

  lemma TruncBetween(x: int, lo: int, hi: int)
    requires 100 * lo <= x <= 100 * hi
    ensures lo <= TruncDiv(x, 100) <= hi
  {
    var n := if x < 0 then -x else x;
    var q, r := n / 100, n % 100;
    assert n == 100 * q + r && 0 <= r < 100;
  }

  /** Within the limits, a colour temperature set and read back comes out
      within the limits again, and at each limit exactly. */
  lemma ColorTempReadBack(kelvin: int, min: int, max: int)
    requires min < max && min <= kelvin <= max
    ensures var p := ColorTempPercent(kelvin, Int(min), Int(max));
            p.Ok? && var k := ColorTempKelvin(Int(p.value), Int(min), Int(max));
            k.Ok? && k.value.Int? && min <= k.value.i <= max
            && (kelvin == min ==> k.value == Int(min)) && (kelvin == max ==> k.value == Int(max))
  {
  }

  /** The attribute a reported datapoint sets: the first match of the
      update_datapoint chain. */
  datatype Target = OnOff | Brightness | ColorTemp | Rgb | Unknown

  class Light {
    const device: Device
    var state: Option<bool>
    var brightness: Value
    /** The colour temperature, in percent. */
    var colorTemp: Value
    var rgbColor: Value
    const maxColorTemp: Value
    const minColorTemp: Value

    /** FahLight.__init__: the colour-temperature limits are the parameters
        resolved for them, taken only for a light with a colour-temperature
        datapoint; the callback argument is not passed on. */
    constructor(a: DeviceArgs)
      ensures fresh(device) && device.Made(a.(deviceUpdatedCb := None))
      ensures maxColorTemp == LimitOf(a, PAR_MAXIMUM_COLOR_TEMPERATURE)
      ensures minColorTemp == LimitOf(a, PAR_MINIMUM_COLOR_TEMPERATURE)
      ensures state == None && brightness == NoneValue && colorTemp == NoneValue && rgbColor == NoneValue
    {
      maxColorTemp := LimitOf(a, PAR_MAXIMUM_COLOR_TEMPERATURE);
      minColorTemp := LimitOf(a, PAR_MINIMUM_COLOR_TEMPERATURE);
      device := new Device(a.(deviceUpdatedCb := None));
      state, brightness, colorTemp, rgbColor := None, NoneValue, NoneValue, NoneValue;
    }

    static function LimitOf(a: DeviceArgs, parameterId: int): (v: Value)
      ensures v != NoneValue <==>
                PID_COLOR_TEMPERATURE in PyDict.Keys(a.datapoints) && parameterId in PyDict.Keys(a.parameters)
    {
      var p := PyDict.Get(a.parameters, parameterId);
      if PID_COLOR_TEMPERATURE in PyDict.Keys(a.datapoints) && p.Some? then Str(p.value) else NoneValue
    }

    predicate IsDimmer() { device.Has(PID_ABSOLUTE_SET_VALUE) }
    predicate IsColorTemp() { device.Has(PID_COLOR_TEMPERATURE) }
    predicate IsRgb() { device.Has(PID_RGB) }

    /** Whether turn_on re-sends the brightness: a dimmer does when it was
        already on, or when it was off and its brightness is above 0 (int()
        of the brightness may raise). */
    function ResendsBrightness(oldState: Option<bool>): (r: Result<bool, PyError>)
      reads this
      ensures !IsDimmer() ==> r == Ok(false)
      ensures IsDimmer() && oldState == Some(true) ==> r == Ok(true)
      ensures r.Err? ==> IsDimmer() && oldState != Some(true) && ToInt(brightness).Err?
    {
      if !IsDimmer() then Ok(false)
      else if oldState != Some(true) then
        var b := ToInt(brightness);
        if b.Err? then Err(b.error) else Ok(b.value > 0)
      else Ok(true)
    }

    /** turn_on: '1' to the switch datapoint and the state is on; then a
        dimmer re-sends its brightness (see ResendsBrightness), then the
        colour temperature and the colour go out when the light has them. A
        KeyError without a switch datapoint changes nothing. */
    method TurnOn() returns (r: Outcome<PyError>)
      modifies this, device
      ensures !device.Has(PID_SWITCH_ON_OFF) ==>
                r == Fail(KeyError) && state == old(state) && device.commands == old(device.commands)
      ensures device.Has(PID_SWITCH_ON_OFF) ==> state == Some(true)
      ensures device.Has(PID_SWITCH_ON_OFF) && ResendsBrightness(old(state)).Err? ==>
                r == Fail(ResendsBrightness(old(state)).error)
                && device.commands == old(device.commands) + device.SendsTo(PID_SWITCH_ON_OFF, "1")
      ensures device.Has(PID_SWITCH_ON_OFF) && ResendsBrightness(old(state)).Ok? ==>
                r.Pass?
                && device.commands == old(device.commands) + device.SendsTo(PID_SWITCH_ON_OFF, "1")
                                      + (if ResendsBrightness(old(state)).value
                                         then device.SendsTo(PID_ABSOLUTE_SET_VALUE, ToStr(brightness)) else [])
                                      + device.SendsTo(PID_COLOR_TEMPERATURE, ToStr(colorTemp))
                                      + device.SendsTo(PID_RGB, ToStr(rgbColor))
      ensures brightness == old(brightness) && colorTemp == old(colorTemp) && rgbColor == old(rgbColor)
      ensures device.callbacks == old(device.callbacks) && device.invoked == old(device.invoked)
    {
      var oldState := state;
      r := device.SendTo(PID_SWITCH_ON_OFF, "1");
      if r.Pass? {
        state := Some(true);
        r := SendSettings(oldState);
      }
    }

    /** The part of turn_on after the light is on: the brightness, colour
        temperature and colour it re-sends. */
    method SendSettings(oldState: Option<bool>) returns (r: Outcome<PyError>)
      modifies device
      ensures ResendsBrightness(oldState).Err? ==>
                r == Fail(ResendsBrightness(oldState).error) && device.commands == old(device.commands)
      ensures ResendsBrightness(oldState).Ok? ==>
                r.Pass?
                && device.commands == old(device.commands)
                                      + (if ResendsBrightness(oldState).value
                                         then device.SendsTo(PID_ABSOLUTE_SET_VALUE, ToStr(brightness)) else [])
                                      + device.SendsTo(PID_COLOR_TEMPERATURE, ToStr(colorTemp))
                                      + device.SendsTo(PID_RGB, ToStr(rgbColor))
      ensures device.callbacks == old(device.callbacks) && device.invoked == old(device.invoked)
    {
      var resend := ResendsBrightness(oldState);
      if resend.Err? {
        return Fail(resend.error);
      }
      ghost var c0 := device.commands;
      ghost var sb := if resend.value then device.SendsTo(PID_ABSOLUTE_SET_VALUE, ToStr(brightness)) else [];
      ghost var sc := device.SendsTo(PID_COLOR_TEMPERATURE, ToStr(colorTemp));
      ghost var sr := device.SendsTo(PID_RGB, ToStr(rgbColor));
      if resend.value {
        var _ := device.SendTo(PID_ABSOLUTE_SET_VALUE, ToStr(brightness));
      }
      assert device.commands == c0 + sb;
      if IsColorTemp() {
        var _ := device.SendTo(PID_COLOR_TEMPERATURE, ToStr(colorTemp));
      }
      assert device.commands == c0 + sb + sc;
      if IsRgb() {
        var _ := device.SendTo(PID_RGB, ToStr(rgbColor));
      }
      assert device.commands == c0 + sb + sc + sr;
      r := Pass;
    }

    /** turn_off: '0' to the switch datapoint, then the state is off. */
    method TurnOff() returns (r: Outcome<PyError>)
      modifies this, device
      ensures r.Pass? <==> device.Has(PID_SWITCH_ON_OFF)
      ensures device.commands == old(device.commands) + device.SendsTo(PID_SWITCH_ON_OFF, "0")
      ensures state == if r.Pass? then Some(false) else old(state)
      ensures brightness == old(brightness) && colorTemp == old(colorTemp) && rgbColor == old(rgbColor)
      ensures device.callbacks == old(device.callbacks) && device.invoked == old(device.invoked)
    {
      r := device.SendTo(PID_SWITCH_ON_OFF, "0");
      if r.Pass? {
        state := Some(false);
      }
    }

    /** set_brightness: only a dimmer keeps a brightness. */
    method SetBrightness(value: int)
      modifies this
      ensures brightness == if IsDimmer() then Int(value) else old(brightness)
      ensures state == old(state) && colorTemp == old(colorTemp) && rgbColor == old(rgbColor)
    {
      if IsDimmer() {
        brightness := Int(value);
      }
    }

    /** set_color_temp: a light with a colour-temperature datapoint stores the
        temperature as a percentage of its range. */
    method SetColorTemp(kelvin: int) returns (r: Outcome<PyError>)
      modifies this
      ensures !IsColorTemp() ==> r.Pass? && colorTemp == old(colorTemp)
      ensures IsColorTemp() ==>
                match ColorTempPercent(kelvin, minColorTemp, maxColorTemp)
                case Ok(p) => r.Pass? && colorTemp == Int(p)
                case Err(e) => r == Fail(e) && colorTemp == old(colorTemp)
      ensures state == old(state) && brightness == old(brightness) && rgbColor == old(rgbColor)
    {
      r := Pass;
      if IsColorTemp() {
        var p := ColorTempPercent(kelvin, minColorTemp, maxColorTemp);
        if p.Err? {
          return Fail(p.error);
        }
        colorTemp := Int(p.value);
      }
    }

    /** get_color_temp: the stored percentage, in kelvin. */
    function GetColorTemp(): (r: Result<Value, PyError>)
      reads this
      ensures r == ColorTempKelvin(colorTemp, minColorTemp, maxColorTemp)
    {
      ColorTempKelvin(colorTemp, minColorTemp, maxColorTemp)
    }

    /** set_rgb_color: only a colour light keeps a colour. */
    method SetRgbColor(red: int, green: int, blue: int)
      modifies this
      ensures rgbColor == if IsRgb() then Int(PackRgb(red, green, blue)) else old(rgbColor)
      ensures IsRgb() && 0 <= red < 256 && 0 <= green < 256 && 0 <= blue < 256 ==>
                UnpackRgb(rgbColor) == Ok((red, green, blue))
      ensures state == old(state) && brightness == old(brightness) && colorTemp == old(colorTemp)
    {
      if IsRgb() {
        rgbColor := Int(PackRgb(red, green, blue));
        if 0 <= red < 256 && 0 <= green < 256 && 0 <= blue < 256 {
          RgbRoundTrip(red, green, blue);
        }
      }
    }

    function TargetOf(dp: string): Target
    {
      if device.Dp(PID_INFO_ON_OFF) == Some(dp) then OnOff
      else if device.Dp(PID_INFO_ACTUAL_DIMMING_VALUE) == Some(dp) then Brightness
      else if device.Dp(PID_INFO_COLOR_TEMPERATURE) == Some(dp) then ColorTemp
      else if device.Dp(PID_INFO_RGB) == Some(dp) then Rgb
      else Unknown
    }

    /** update_datapoint: on/off is on exactly for '1', the brightness is
        stored as reported, the colour temperature and the colour as
        numbers (a value that is not one raises and changes nothing); a
        datapoint the light did not resolve changes nothing. */
    method UpdateDatapoint(dp: string, value: Option<string>) returns (r: Outcome<PyError>)
      modifies this
      ensures r.Fail? <==> TargetOf(dp) in {ColorTemp, Rgb} && ToInt(OfText(value)).Err?
      ensures r.Fail? ==> r.error == ToInt(OfText(value)).error
      ensures state == if TargetOf(dp) == OnOff then Some(value == Some("1")) else old(state)
      ensures brightness == if TargetOf(dp) == Brightness then OfText(value) else old(brightness)
      ensures colorTemp == if TargetOf(dp) == ColorTemp && r.Pass? then Int(ToInt(OfText(value)).value) else old(colorTemp)
      ensures rgbColor == if TargetOf(dp) == Rgb && r.Pass? then Int(ToInt(OfText(value)).value) else old(rgbColor)
    {
      r := Pass;
      var i := ToInt(OfText(value));
      match TargetOf(dp)
      case OnOff =>
        state := Some(value == Some("1"));
      case Brightness =>
        brightness := OfText(value);
      case ColorTemp =>
        if i.Err? {
          return Fail(i.error);
        }
        colorTemp := Int(i.value);
      case Rgb =>
        if i.Err? {
          return Fail(i.error);
        }
        rgbColor := Int(i.value);
      case Unknown =>
    }
  }
}
