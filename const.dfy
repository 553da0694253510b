/** The function ids and pairing ids of custom_components/freeathome/fah/const.py.
    The device modules also import names that file does not define; they are
    declared here with placeholder values outside the 16-bit id range, distinct
    from each other and from every defined id, and nothing proved depends on
    a placeholder beyond that. */
module Const {
  const FUNCTION_IDS_BINARY_SENSOR: set<int> := {
    0x0000, 0x0001, 0x0003, 0x0004, 0x0005, 0x0006, 0x000C, 0x000D, 0x000E, 0x000F, 0x0011,
    0x0028, 0x002A, 0x0071, 0x1008, 0x1009, 0x100A, 0x100B, 0x1018, 0x1019, 0x101A, 0x101B,
    0x1028, 0x1029, 0x102A, 0x102B, 0x1040, 0x1041, 0x1042, 0x1058, 0x1059, 0x105A, 0x105B}
  const FUNCTION_IDS_SWITCHING_ACTUATOR: set<int> := {0x0007, 0x0045}
  const FUNCTION_IDS_DIMMING_ACTUATOR: set<int> := {0x0012, 0x1810, 0x1819}
  const FUNCTION_IDS_ROOM_TEMPERATURE_CONTROLLER: set<int> := {0x000A, 0x000B, 0x0023, 0x003E, 0x003F}
  const FUNCTION_IDS_BLIND_ACTUATOR: set<int> :=
    {0x002C, 0x0061, 0x0062, 0x0063, 0x1820, 0x1821, 0x1822, 0x1823, 0x1825}
  const FUNCTION_IDS_SHUTTER_ACTUATOR: set<int> := {0x0009}
  const FUNCTION_IDS_SCENE: set<int> := {0x4000, 0x4800, 0x4801, 0x4802, 0x4803, 0x4804}
  const FUNCTION_IDS_MOVEMENT_DETECTOR: set<int> :=
    {0x0011, 0x1090, 0x1091, 0x1092, 0x1093, 0x1094, 0x1095, 0x1096}
  const FUNCTION_IDS_DOOR_OPENER: set<int> := {0x001A}
  const FUNCTION_IDS_WEATHER_STATION: set<int> := {0x0041, 0x0042, 0x0043, 0x0044}

  /** Position suffix of a channel, by its name id. */
  const NAME_IDS_TO_BINARY_SENSOR_SUFFIX: map<int, string> := map[
    0x000A := "", 0x0043 := " L", 0x0044 := " R", 0x0045 := " LT", 0x0046 := " LB",
    0x0047 := " RT", 0x0048 := " RB", 0x0066 := " T", 0x0067 := " B"]

  // Pairing ids
  const PID_SWITCH_ON_OFF := 0x0001
  const PID_ABSOLUTE_SET_VALUE := 0x0011
  const PID_INFO_ON_OFF := 0x0100
  const PID_INFO_ACTUAL_DIMMING_VALUE := 0x0110
  const PID_MOVE_UP_DOWN := 0x0020
  const PID_ADJUST_UP_DOWN := 0x0021
  const PID_SET_ABSOLUTE_POSITION_BLINDS := 0x0023
  const PID_SET_ABSOLUTE_POSITION_SLATS := 0x0024
  const PID_FORCE_POSITION_BLIND := 0x0028
  const PID_INFO_MOVE_UP_DOWN := 0x0120
  const PID_CURRENT_ABSOLUTE_POSITION_BLINDS_PERCENTAGE := 0x0121
  const PID_CURRENT_ABSOLUTE_POSITION_SLATS_PERCENTAGE := 0x0122
  const PID_FORCE_POSITION_INFO := 0x0101
  const PID_ECO_MODE_ON_OFF_REQUEST := 0x003A
  const PID_CONTROLLER_ON_OFF_REQUEST := 0x0042
  const PID_ABSOLUTE_SETPOINT_TEMPERATURE := 0x0140
  const PID_SET_VALUE_TEMPERATURE := 0x0033
  const PID_CONTROLLER_ON_OFF := 0x0038
  const PID_STATUS_INDICATION := 0x0036
  const PID_MEASURED_TEMPERATURE := 0x0130
  const PID_HEATING_DEMAND := 0x014D
  const PARAM_TEMPERATURE_CORRECTION := 0x001B
  const PID_MOVEMENT_UNDER_CONSIDERATION_OF_BRIGHTNESS := 0x0006
  const PID_PRESENCE := 0x0007
  const PID_MEASURED_BRIGHTNESS := 0x0403
  const PID_SCENE_CONTROL := 0x0004
  const PID_TIMED_START_STOP := 0x0002
  const PID_FORCE_POSITION := 0x0003
  const PID_RELATIVE_SET_VALUE := 0x0010
  const PID_WIND_ALARM := 0x0025
  const PID_FROST_ALARM := 0x0026
  const PID_RAIN_ALARM := 0x0027
  const PID_WINDOW_DOOR := 0x0035
  const PID_SWITCHOVER_HEATING_COOLING := 0x0135
  const PID_OUTDOOR_TEMPERATURE := 0x0400
  const PID_WIND_SPEED := 0x0404
  const PID_RAIN_DETECTION := 0x0405

  // Names the device modules import but const.py does not define (placeholders).
  const FUNCTION_IDS_AWNING_ACTUATOR: set<int> := {0x2_0001}
  const FUNCTION_IDS_ATTIC_WINDOW_ACTUATOR: set<int> := {0x2_0002}
  const FUNCTION_IDS_COLOR_ACTUATOR: set<int> := {0x2_0003}
  const FUNCTION_IDS_COLOR_TEMP_ACTUATOR: set<int> := {0x2_0004}
  const FUNCTION_IDS_LIGHT_GROUP: set<int> := {0x2_0005}
  const FUNCTION_IDS_DOORBELL_SENSOR: set<int> := {0x2_0006}
  const FUNCTION_IDS_AIR_QUALITY_SENSOR: set<int> := {0x2_0007}
  const PID_COLOR_TEMPERATURE := 0x1_0001
  const PID_INFO_COLOR_TEMPERATURE := 0x1_0002
  const PID_HSV := 0x1_0003
  const PID_INFO_HSV := 0x1_0004
  const PID_RGB := 0x1_0005
  const PID_INFO_RGB := 0x1_0006
  const PID_COLOR := 0x1_0007
  const PID_SATURATION := 0x1_0008
  const PID_SYSAP_INFO_ON_OFF := 0x1_0009
  const PID_SYSAP_INFO_ACTUAL_DIMMING_VALUE := 0x1_000A
  const PID_BRIGHTNESS_ALARM := 0x1_000B
  const PID_WINDOW_DOOR_POSITION := 0x1_000C
  const PID_FIRE_ALARM_ACTIVE := 0x1_000D
  const PID_CO_ALARM_ACTIVE := 0x1_000E
  const PID_MEASURED_HUMIDITY := 0x1_000F
  const PID_MEASURED_VOC := 0x1_0010
  const PID_MEASURED_CO2 := 0x1_0011
  const PID_LOCK_UNLOCK_COMMAND := 0x1_0012
  const PID_INFO_LOCK_UNLOCK := 0x1_0013
  const PAR_MAXIMUM_COLOR_TEMPERATURE := 0x3_0001
  const PAR_MINIMUM_COLOR_TEMPERATURE := 0x3_0002
}

/** The function ids of freeathome/fah/const.py, which the older device
    modules under freeathome/fah/devices import. That file defines no pairing
    ids and not every function-id list those modules use; the model takes the
    missing names from `Const`. */
module LegacyConst {
  const FUNCTION_IDS_SENSOR_UNIT: set<int> := {0x0000, 0x0001, 0x0004, 0x0005, 0x0006, 0x0028, 0x0071}
  const FUNCTION_IDS_SWITCHING_ACTUATOR: set<int> := {0x0007, 0x0045}
  const FUNCTION_IDS_DIMMING_ACTUATOR: set<int> := {0x0012}
  const FUNCTION_IDS_ROOM_TEMPERATURE_CONTROLLER: set<int> := {0x000A, 0x000B, 0x0023}
  const FUNCTION_IDS_BLIND_ACTUATOR: set<int> := {0x0009, 0x0061, 0x0062, 0x0063}
  const FUNCTION_IDS_SCENE: set<int> := {0x4000, 0x4800, 0x4801, 0x4802, 0x4803, 0x4804, 0x4A00, 0x4A01}
}
