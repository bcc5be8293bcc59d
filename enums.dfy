/** The two enumerations of the panel: which screen is shown, and what a room's
    climate output is doing. */
module Enums {

  /** Screen contexts kept on the navigation stack. */
  datatype SystemState = WelcomeScreen | RoomMenu | RoomLightControl | RoomTempControl | RoomSchedule

  /** The thermostat's output state. */
  datatype ACState = Off | Heating | Cooling
}
