# Arduino home automation: a verified model of the controller

This project models an Arduino Uno sketch that runs the lights and climate of two rooms. The model covers:

- the bounded screen-navigation stack (`StateStack`);
- the helpers in `general.cpp`: the virtual clock, the expander output byte, the ambient-light mapping and the timestamp text;
- each room's `RoomControl`: thermostat, light strip segment, hourly light schedule and occupancy timers;
- the dispatcher of `main.cpp`: `setup()` and one pass of `loop()`.

Each module is split into a value-level specification and a class.

- **Value-level specification.** Modules `NavStack`, `General`, `RoomSpec` and `HomeSpec` are functions on datatypes, with lemmas about them.
- **Classes.** `NavStack.StateStack`, `General.Globals`, `Rooms.RoomControl` and `MainLoop.Controller` update fields, arrays and the LED strip in place, as the sketch does.
- **The link between them.** Every method is proved to end in the state that its specification function computes from the old state. It also keeps the hardware outputs consistent with the rooms:
  - the two expander bits of each room show its thermostat state;
  - each room's four pixels show its light intensity.

Modelling conventions:

- Temperatures are whole tenths of a degree Celsius.
- Times are milliseconds of virtual time: uptime plus the 8 o'clock start plus the wheel offset.
- Buttons, sensor readings and the uptime of a pass are parameters.

Modules:

- `Enums` — the screen and thermostat enumerations (`enums.h`).
- `NavStack` — `StateStack.cpp`: `Pushed`/`Popped`/`TopOf` on sequences, and the class over a ten-entry array.
- `General` — `general.cpp` and `general.h`:
  - the clock and timestamp;
  - `setExpanderPin` on a `bv8`;
  - Arduino's `map` with C's truncating division;
  - the shared globals.
- `RoomSpec` — every `RoomControl` step as a function on a room and the shared redraw flags.
- `Rooms` — class `RoomControl`, whose methods follow `RoomSpec`.
- `HomeSpec` — the `main.cpp` dispatcher on a `Home` value:
  - the two rooms, the redraw flags, the stack, the screen drawn and the clock offset;
  - the invariant `HomeOk`.
- `MainLoop` — class `Controller` holding the globals and both rooms, whose methods follow `HomeSpec`.

## Model

| member | source | states |
|---|---|---|
| NavStack.Pushed | src/impl/StateStack.cpp:5-9 | below capacity 10 the entry is appended on top and the rest kept; on a full stack nothing changes |
| NavStack.TopOf | src/impl/StateStack.cpp:17-22 | the top entry of a non-empty stack, which is one of its entries; the welcome screen for an empty one |
| NavStack.Popped | src/impl/StateStack.cpp:11-15 | a non-empty stack loses exactly its top entry; an empty one stays empty |
| NavStack.PushThenTop | src/impl/StateStack.cpp:5-22 | after a push below capacity the top is the pushed screen and the depth grew by one |
| NavStack.PushThenPop | src/impl/StateStack.cpp:5-15 | a pop undoes a push made below capacity |
| NavStack.PopEmptyShowsWelcome | src/impl/StateStack.cpp:11-22 | popping an empty stack leaves it empty and its top reads as the welcome screen |
| NavStack.RunKeepsBounds | src/impl/StateStack.cpp:5-26 | any sequence of pushes and history-guarded pops keeps the depth in 1..10 and never removes the bottom entry |
| NavStack.StateStack.constructor | src/impl/StateStack.cpp:3 | a new stack is empty |
| NavStack.StateStack.Push | src/impl/StateStack.cpp:5-9 | the array's live prefix becomes `Pushed` of the old contents |
| NavStack.StateStack.Pop | src/impl/StateStack.cpp:11-15 | the live prefix becomes `Popped` of the old contents |
| NavStack.StateStack.TopState | src/impl/StateStack.cpp:17-22 | the top of the contents, or the welcome screen when empty |
| NavStack.StateStack.IsHistoryAvailable | src/impl/StateStack.cpp:24-26 | true exactly when there is an entry below the top |
| NavStack.StateStack.Size | src/impl/StateStack.cpp:28-30 | the number of live entries, between 0 and 10 |
| General.MillisFromHour | src/impl/general.cpp:61-63 | a whole number of hours: divisible by an hour, and dividing back gives h |
| General.CurrentTime | src/impl/general.cpp:57-59 | virtual time runs with millis(), ahead of it by the 8 o'clock start plus the wheel offset, so at most four hours past the start |
| General.Hour | src/impl/general.cpp:65-67 | the hour of a virtual time is below 24 |
| General.Minute | src/impl/general.cpp:69-71 | the minute of a virtual time is below 60 |
| General.HourOfMillisFromHour | src/impl/general.cpp:61-71 | h hours plus less than an hour reads as hour h, with the minute of the remainder |
| General.ClockStartsAtStartHour | src/impl/general.cpp:57-71 | with less than an hour of uptime plus wheel offset, the clock reads 8 o'clock and the elapsed minutes |
| General.ClockIsDaily | src/impl/general.cpp:65-71 | adding whole days changes neither the hour nor the minute |
| General.TimestampOf | src/impl/general.cpp:44-49 | the four fields are in range, hours and minutes agree with the clock, and together they are the time since midnight |
| General.Digits | src/impl/general.cpp:52 | zero-padded decimal text has exactly the requested width and only digits |
| General.ValueOfDigits | src/impl/general.cpp:52 | reading the zero-padded text back gives the number whenever it fits the width |
| General.FormatTimestamp | src/impl/general.cpp:51-54 | the text is 12 characters with the separators at positions 2, 5 and 8 |
| General.FormatTimestampRoundTrip | src/impl/general.cpp:44-55 | parsing the formatted text returns the timestamp's fields |
| General.GetTimestamp | src/impl/general.cpp:44-55 | the 12-character text parses back to the fields of the current time |
| General.WithPin | src/impl/general.cpp:7-12 | setting a pin only adds bits and clearing a pin only removes bits |
| General.WithPinBits | src/impl/general.cpp:7-12 | the pin's bit becomes the requested level and the other seven bits are unchanged |
| General.WithPinOverwrite | src/impl/general.cpp:7-12 | writing a pin twice is the same as writing it once with the second level |
| General.WithPinCommute | src/impl/general.cpp:7-12 | writes to two different pins can be swapped |
| General.SetThenClear | src/impl/general.cpp:7-12 | setting then clearing a pin equals clearing it, and restores a byte whose pin was clear |
| General.TruncDiv | src/impl/general.cpp:26 | the quotient rounds toward zero: the remainder has the dividend's sign and is smaller than the divisor |
| General.MapOutdoorLightingAsWritten | src/impl/general.cpp:22-28 | never above 4, and exactly 4 for readings below 380 |
| General.AsWrittenAtLowThreshold | src/impl/general.cpp:22-28 | reading 379 gives 4 and reading 380 gives 3 |
| General.AsWrittenAtHighThreshold | src/impl/general.cpp:22-28 | reading 679 gives 0 |
| General.AsWrittenMidRange | src/impl/general.cpp:22-28 | between 380 and 778 the result stays in 0..3 and does not increase with the reading |
| General.AsWrittenGoesNegative | src/impl/general.cpp:22-28 | readings 779 and 1023 give -1 and -3 |
| General.MapOutdoorLighting | src/impl/general.cpp:22-28 | always an intensity in 0..4, equal to the unclamped map below 779, and 0 from 679 up |
| General.MapOutdoorLightingNonIncreasing | src/impl/general.cpp:22-28 | a brighter reading never gives a higher intensity |
| General.Globals.constructor | src/include/general.h:6-21 | expander byte 0, welcome screen, every flag clear, offset 0, empty stack, dark strip |
| General.Globals.SetExpanderPin | src/impl/general.cpp:7-14 | the stored byte becomes `WithPin` of the old one, so only that pin's bit changes |
| RoomSpec.InitialRoom | src/include/RoomControl.h:12-24 | the field initialisers satisfy the room invariant (target 22.0, intensity 0, no override, empty schedule) |
| RoomSpec.DesiredAC | src/impl/RoomControl.cpp:77-85 | heating exactly when colder than the target, cooling exactly when warmer, off exactly when equal |
| RoomSpec.AdjustAC | src/impl/RoomControl.cpp:77-85 | after the adjustment the thermostat is in the desired state and nothing else changed |
| RoomSpec.AdjustACIdempotent | src/impl/RoomControl.cpp:77-85 | adjusting twice is the same as adjusting once |
| RoomSpec.DriveOutputs | src/impl/RoomControl.cpp:87-103 | the heating bit is set exactly for heating and the cooling bit exactly for cooling; the other six bits are kept |
| RoomSpec.DriveOutputsWhenMatching | src/impl/RoomControl.cpp:77-103 | driving a state the byte already shows leaves the byte unchanged, so skipping `setACState` is safe |
| RoomSpec.DriveOutputsTwice | src/impl/RoomControl.cpp:87-103 | driving two states in a row equals driving the second |
| RoomSpec.DriveOutputsKeepsOther | src/impl/RoomControl.cpp:87-103 | a room wired to other pins still shows its thermostat state |
| RoomSpec.AutoUpdateTemperature | src/impl/RoomControl.cpp:61-68 | the reading is stored, the temperature flag rises iff it moved, and the thermostat ends in the desired state |
| RoomSpec.TempControl | src/impl/RoomControl.cpp:49-59 | -0.5 exactly when left is held above 10.0; +0.5 exactly when not that and right is held below 30.0; when neither guard holds the room and flags are unchanged; only the target and the temperature flag ever change |
| RoomSpec.PaintSegment | src/impl/RoomControl.cpp:140-157 | the segment shows the intensity (that many green pixels, the rest black) and no pixel outside it changes |
| RoomSpec.PaintSegmentWhenShown | src/impl/RoomControl.cpp:140-157 | repainting a segment that already shows the intensity changes nothing |
| RoomSpec.PaintSegmentTwice | src/impl/RoomControl.cpp:140-157 | two repaints equal the second |
| RoomSpec.PaintSegmentKeepsOther | src/impl/RoomControl.cpp:140-157 | a disjoint segment keeps showing its intensity |
| RoomSpec.Repaint | src/impl/RoomControl.cpp:140-157 | a manual repaint switches automatic light off, an automatic one keeps it, and both raise the light flag |
| RoomSpec.LightControl | src/impl/RoomControl.cpp:122-138 | intensity moves by at most one and stays in 0..4; it drops exactly when left is held above 0, and rises exactly when that is not so and right is held below 4; a step turns automatic light off, overrides the hour and raises the flag; without a step only the schedule button moves the cursor to the current hour |
| RoomSpec.AutoAdjustLight | src/impl/RoomControl.cpp:159-166 | intensity changes iff automatic light is on, no schedule is in force and the mapped reading differs; it then becomes the mapped reading and the light flag rises (corrected map) |
| RoomSpec.AutoAdjustLightAsWritten | src/impl/RoomControl.cpp:159-166 | with the unclamped map the source calls, the automation agrees with the corrected one for every reading below 779 |
| RoomSpec.AsWrittenAutoLightLeavesRange | src/impl/RoomControl.cpp:159-166 | with automatic light on and no schedule in force, reading 779 sets the intensity to -1, outside the room invariant, and raises the light flag |
| RoomSpec.HourCursorRoundTrip | src/impl/RoomControl.cpp:192-200 | the cursor stays an hour, back is +23 mod 24, and back and forward undo each other |
| RoomSpec.ScheduleControl | src/impl/RoomControl.cpp:192-209 | left moves the cursor back, otherwise right moves it forward, otherwise the schedule button stores the intensity in the selected slot; any press raises the schedule flag |
| RoomSpec.CommitStoresIntensity | src/impl/RoomControl.cpp:201-208 | a commit writes only the selected slot, and the schedule is in force afterwards iff it was before or the intensity is nonzero |
| RoomSpec.DeactivateSchedule | src/impl/RoomControl.cpp:228-232 | the schedule is no longer in force, the light is off and the light flag is raised |
| RoomSpec.ResetRoomOverride | src/impl/RoomControl.cpp:234-239 | the override is cleared and the room counts as freshly occupied at `now` |
| RoomSpec.CheckSchedule | src/impl/RoomControl.cpp:211-226 | keeps the room invariant, moves the motion time only to `now`, and changes nothing but the intensity, the schedule-in-force flag, the override, the occupancy fields, the motion time and the light flag (which it only raises) |
| RoomSpec.ApplySlot | src/impl/RoomControl.cpp:216-222 | the slot rule keeps the room invariant and changes only the intensity, the schedule-in-force flag and (only raising) the light flag |
| RoomSpec.CheckScheduleRules | src/impl/RoomControl.cpp:211-226 | states each rule: a nonzero slot differing from the light, outside the overridden hour, applies; an empty slot ends a schedule in force; otherwise the light, the schedule-in-force flag and every redraw flag are kept; a stale override is reset |
| RoomSpec.Vacate | src/impl/RoomControl.cpp:257-263 | the light goes off (manually, raising the flag iff it was on) and the room is empty and unwarned |
| RoomSpec.Warn | src/impl/RoomControl.cpp:264-274 | target 18.0 (flag iff it changed), light to 1 if brighter and to 0 from 1 (manually, flag iff it was on), and the room is warned |
| RoomSpec.HandleInactivity | src/impl/RoomControl.cpp:254-275 | for every idle time: at most 15 s changes nothing; warned and at most 20 s changes nothing; warned and over 20 s vacates; unwarned and over 15 s warns; keeps the invariant, motion time, schedule and selection, and only raises flags |
| RoomSpec.DetectRoomMotion | src/impl/RoomControl.cpp:241-252 | motion more than 2 s after the last accepted one sets the motion time to `now`, turns automatic light on and marks the room occupied, with no flag raised; otherwise the inactivity rules run exactly when someone is present, no schedule is in force and the hour is not overridden, and nothing changes when they do not |
| RoomSpec.MotionDebounce | src/impl/RoomControl.cpp:241-248 | a second motion within 2 s of an accepted one does not move the motion time |
| RoomSpec.InactivityTimeline | src/impl/RoomControl.cpp:241-275 | an occupied room idle for 16 s is set back to 18.0 and dimmed; at 21 s its light is off and it is empty |
| RoomSpec.Tick | src/impl/RoomControl.cpp:277-281 | the automation of a tick keeps the room invariant and the motion bound, only raises flags, and keeps the schedule and selection |
| RoomSpec.NeedsRedraw | src/impl/RoomControl.cpp:282-291 | only the three room editing screens are ever redrawn by a flag, and no flag means no redraw |
| RoomSpec.CommitElsewhereThenCheck | src/impl/RoomControl.cpp:201-222 | committing another hour puts the schedule in force, and the next check with an empty current slot ends it and turns the light off |
| RoomSpec.ScheduledHourApplies | src/impl/RoomControl.cpp:211-219 | a slot of 2 at 9 o'clock with the light off and no override sets the light to 2 and the schedule in force |
| Rooms.RoomControl.constructor | src/include/RoomControl.h:12-27 | a new room has the initial field values, the given name and wiring |
| Rooms.RoomControl.Display | src/impl/RoomControl.cpp:5-8 | the room becomes displayed and its menu is pushed |
| Rooms.RoomControl.HandleRoomMenu | src/impl/RoomControl.cpp:20-30 | left pushes the light screen; otherwise right pushes the temperature screen |
| Rooms.RoomControl.HandleRoomTempControl | src/impl/RoomControl.cpp:49-59 | the room and flags end as `TempControl` computes |
| Rooms.RoomControl.SetACState | src/impl/RoomControl.cpp:87-103 | the state is stored, the byte becomes `DriveOutputs` of the old byte and shows the state |
| Rooms.RoomControl.AdjustAC | src/impl/RoomControl.cpp:77-85 | the room ends as `AdjustAC` computes, the outputs show it, and the byte is untouched when the state does not change |
| Rooms.RoomControl.AutoUpdateTemperature | src/impl/RoomControl.cpp:61-68 | the room ends as `AutoUpdateTemperature` computes and the outputs show the new state |
| Rooms.RoomControl.UpdateNeoPixelBrightness | src/impl/RoomControl.cpp:140-157 | the two pixel loops leave the strip as `PaintSegment` and the room as `Repaint` |
| Rooms.RoomControl.HandleRoomLightControl | src/impl/RoomControl.cpp:122-138 | the room ends as `LightControl` computes, the strip shows it, and the schedule editor is pushed exactly when opened |
| Rooms.RoomControl.OpenSchedule | src/impl/RoomControl.cpp:133-137 | when pressed, the editor is pushed and the cursor set to the hour; otherwise nothing changes |
| Rooms.RoomControl.SetManualIntensity | src/impl/RoomControl.cpp:123-132 | the new intensity is painted, automatic light is off, the hour is overridden and the light flag is raised |
| Rooms.RoomControl.AutoAdjustLight | src/impl/RoomControl.cpp:159-166 | the room ends as `AutoAdjustLight` computes and the strip shows it |
| Rooms.RoomControl.HandleRoomSchedule | src/impl/RoomControl.cpp:192-209 | the room, its schedule array and the flags end as `ScheduleControl` computes |
| Rooms.RoomControl.DeactivateSchedule | src/impl/RoomControl.cpp:228-232 | the room ends as `DeactivateSchedule` computes and the strip shows it |
| Rooms.RoomControl.ResetRoomOverride | src/impl/RoomControl.cpp:234-239 | the room ends as `ResetRoomOverride` computes |
| Rooms.RoomControl.CheckSchedule | src/impl/RoomControl.cpp:211-226 | the room ends as `CheckSchedule` computes and the strip shows it |
| Rooms.RoomControl.HandleInactivity | src/impl/RoomControl.cpp:254-275 | the room ends as `HandleInactivity` computes and the strip shows it |
| Rooms.RoomControl.Vacate | src/impl/RoomControl.cpp:257-263 | the room ends as `Vacate` computes and the strip shows it |
| Rooms.RoomControl.Dim | src/impl/RoomControl.cpp:269-272 | the light drops to 1 or 0 as a manual change, painted, with the light flag raised |
| Rooms.RoomControl.Warn | src/impl/RoomControl.cpp:264-274 | the room ends as `Warn` computes and the strip shows it |
| Rooms.RoomControl.DetectRoomMotion | src/impl/RoomControl.cpp:241-252 | the room ends as `DetectRoomMotion` computes and the strip shows it |
| Rooms.RoomControl.ShouldUpdate | src/impl/RoomControl.cpp:277-292 | the room ends as `Tick` computes, the strip and expander show it, and the result is true exactly when a raised flag belongs to the screen shown |
| HomeSpec.ConfigsApart | src/include/hardware.h:24-35 | both rooms' wiring is drivable and they share no expander pin and no pixel |
| HomeSpec.PowerUpShowsInitialRooms | src/include/general.h:8 | the zero byte and dark strip of power-up already show a room's initial state |
| HomeSpec.ApartRoomsKeepOutputs | src/impl/RoomControl.cpp:87-157 | driving one room's pins and repainting its segment leaves a room apart from it showing what it showed |
| HomeSpec.Setup | src/impl/main.cpp:131-158 | after setup the invariant holds, the stack is just the welcome screen, no flag is raised and neither room is displayed |
| HomeSpec.WheelOffset | src/impl/main.cpp:101 | the offset is within the wheel's four hours, 0 at one end and the full range at the other |
| HomeSpec.WheelOffsetMonotone | src/impl/main.cpp:101 | turning the wheel further never moves the clock back |
| HomeSpec.UpdateStartTime | src/impl/main.cpp:98-105 | a new reading sets the offset and raises the time flag; the rooms, stack, screen and flags are kept |
| HomeSpec.UpdateStartTimeIdempotent | src/impl/main.cpp:98-105 | reading the same position again changes nothing |
| HomeSpec.HandleBack | src/impl/main.cpp:115-119 | back with history drops exactly the top screen; the welcome screen at the bottom is never popped |
| HomeSpec.DisplayCurrentMenu | src/impl/main.cpp:17-55 | drawing the welcome screen deselects both rooms; any other screen changes no state |
| HomeSpec.Refresh | src/impl/main.cpp:120-126 | the screen becomes the top of the stack and every flag is cleared; the rooms change at most in being deselected, which happens iff the top is the welcome screen |
| HomeSpec.Tick1 | src/impl/main.cpp:120 | room 1's tick touches only room 1 and the flags, keeps room 1's invariant and motion bound, and only raises flags |
| HomeSpec.Tick2 | src/impl/main.cpp:120 | room 2's tick touches only room 2 and the flags, keeps room 2's invariant and motion bound, and only raises flags |
| HomeSpec.Redraw | src/impl/main.cpp:120-126 | the invariant and the motion bound are kept, and the stack is not touched |
| HomeSpec.HandleWelcomeScreenAsWritten | src/impl/main.cpp:24-34 | left displays room 1, otherwise right displays room 2, either pushes the room menu, only the two display flags and the stack ever change, and with neither button nothing changes |
| HomeSpec.HandleWelcomeScreen | src/impl/main.cpp:24-34 | the room chosen becomes the selected one and its menu is pushed; only the two display flags and the stack change; with neither button nothing changes |
| HomeSpec.WelcomeAgreesWhenDeselected | src/impl/main.cpp:17-34 | once the welcome screen has been drawn, the corrected handler and the as-written one agree |
| HomeSpec.RoomStep | src/impl/main.cpp:63-75 | the screen's handler keeps the room invariant, the selection and the motion time |
| HomeSpec.RoomStepStack | src/impl/main.cpp:63-75 | a handler's push keeps the stack within 1..10 with the welcome screen at the bottom |
| HomeSpec.HandleCurrentMenu | src/impl/main.cpp:57-76 | keeps the invariant, the screen drawn, the offset and both motion times |
| HomeSpec.DisplayCurrentTime | src/impl/main.cpp:78-96 | the clock is rewritten iff the wheel moved or the minute is less than a second old; the time flag ends clear |
| HomeSpec.ClockText | src/impl/main.cpp:85-89 | four digits |
| HomeSpec.ClockTextReadsBack | src/impl/main.cpp:85-92 | the first two digits read back as the hour and the last two as the minute |
| HomeSpec.Loop | src/impl/main.cpp:107-129 | a pass keeps the invariant and the motion bound and ends with the time flag clear |
| HomeSpec.RedrawOutcome | src/impl/main.cpp:120-126 | after the test the screen is the top of the stack; a redraw clears every flag, and without one no flag asks for the screen shown |
| HomeSpec.StaleScreenSkipsAutomation | src/impl/main.cpp:120 | a stale screen is redrawn before either room's automation runs |
| HomeSpec.Room1RedrawSkipsRoom2 | src/impl/main.cpp:120 | when room 1 asks for a redraw, room 2's automation does not run in that pass |
| HomeSpec.WelcomeRedrawDeselects | src/impl/main.cpp:36-41 | a redraw of the welcome screen deselects both rooms |
| HomeSpec.BackShowsPreviousScreen | src/impl/main.cpp:115-126 | back followed by the redraw test shows the screen below the old top |
| HomeSpec.MenuActsOnSelectedRoom | src/impl/main.cpp:57-76 | the room screens' handlers leave the room not selected untouched |
| HomeSpec.IdlePassKeepsNavigation | src/impl/main.cpp:107-129 | a pass with no button held keeps the stack, the screen and, off the welcome screen, the selection |
| HomeSpec.FirstPassLeftOpensRoom1 | src/impl/main.cpp:107-158 | the first pass after setup with left held pushes room 1's menu and selects room 1 only |
| HomeSpec.AsWrittenBackAndRightKeepsRoom1 | src/impl/main.cpp:24-34 | with the handler as written, back and right held together right after choosing room 1 leave both rooms displayed and room 1 selected |
| HomeSpec.BackAndRightSelectsRoom2 | src/impl/main.cpp:24-34 | with the corrected handler the same pass selects room 2 |
| MainLoop.Controller.constructor | src/impl/main.cpp:131-158 | the controller's state is `Setup()` and all outputs show the rooms |
| MainLoop.Controller.DisplayCurrentMenu | src/impl/main.cpp:36-55 | the state ends as `DisplayCurrentMenu` computes |
| MainLoop.Controller.UpdateStartTime | src/impl/main.cpp:98-105 | the state ends as `UpdateStartTime` computes |
| MainLoop.Controller.HandleBack | src/impl/main.cpp:115-119 | the state ends as `HandleBack` computes |
| MainLoop.Controller.TickRoom | src/impl/main.cpp:120 | one room's tick as `Tick` computes, leaving the other room's outputs showing it |
| MainLoop.Controller.ShouldUpdateRoom1 | src/impl/main.cpp:120 | the state ends as `Tick1` computes; the result is room 1's redraw signal |
| MainLoop.Controller.ShouldUpdateRoom2 | src/impl/main.cpp:120 | the state ends as `Tick2` computes; the result is room 2's redraw signal |
| MainLoop.Controller.RedrawIfNeeded | src/impl/main.cpp:120-126 | state and result are `Redraw`'s, including the short-circuit |
| MainLoop.Controller.RefreshScreen | src/impl/main.cpp:121-125 | the state ends as `Refresh` computes |
| MainLoop.Controller.ClearDirty | src/impl/main.cpp:123-125 | the three flags are cleared and nothing else changes |
| MainLoop.Controller.HandleWelcomeScreen | src/impl/main.cpp:24-34 | the state ends as the corrected `HandleWelcomeScreen` computes |
| MainLoop.Controller.ShowRoom1 | src/impl/main.cpp:25-28 | corrected left branch: room 1 is selected, room 2 deselected (which the source omits), the menu pushed |
| MainLoop.Controller.ShowRoom2 | src/impl/main.cpp:29-32 | corrected right branch: room 2 is selected, room 1 deselected (which the source omits), the menu pushed |
| MainLoop.Controller.HandleRoomScreen | src/impl/main.cpp:63-75 | the room ends as `RoomStep` computes, the stack as `RoomStepStack`, and the other room keeps its outputs |
| MainLoop.Controller.LightScreen | src/impl/main.cpp:66-68 | the room ends as `LightControl` computes and the other room's segment is kept |
| MainLoop.Controller.HandleCurrentMenu | src/impl/main.cpp:57-76 | the state ends as `HandleCurrentMenu` computes |
| MainLoop.Controller.DisplayCurrentTime | src/impl/main.cpp:78-96 | state and result are `DisplayCurrentTime`'s, and the text is `ClockText` |
| MainLoop.Controller.Loop | src/impl/main.cpp:107-129 | the state ends as `Loop` computes, and every invariant and output coupling is kept |

## Left out

- Screen output is not modelled, because it changes no state the model tracks. This covers the LCD and seven-segment text: `displayRoomMenu`, `displayRoomTempControl`, `displayRoomLightControl`, `displayRoomSchedule`, the welcome text, `printTemperature` and `printCentered`. Only the clock's HHMM text is modelled (`ClockText`).
- `readTemperature` is not modelled, because it is float arithmetic on an analog reading. The room takes the rounded temperature in tenths of a degree as an input. The source compares floats for equality; this is exact here because every value is on the 0.1 grid.
- `HomeSpec.WheelOffset`: it is computed in exact integer arithmetic. The float rounding of the source's `potValue / 1023.0 * range` is not modelled.
- `MainLoop.Controller.constructor`: it does not state that the objects it creates are fresh. This has no effect on the state it is proved to set up.
- AutoAdjustLight (RoomSpec.AutoAdjustLight, Rooms.RoomControl.AutoAdjustLight): uses the corrected, clamped map. The source's unclamped map is `RoomSpec.AutoAdjustLightAsWritten`, proved to agree below a reading of 779 and shown to leave the 0..4 range at 779 (Findings row 1). The kept intensity range is an invariant of the corrected program only.
- Tick (RoomSpec.Tick): runs the corrected automatic light, so it keeps the room invariant for every ambient reading, where the source keeps it only below 779.
- ShouldUpdate (Rooms.RoomControl.ShouldUpdate): ends as `Tick`, with the corrected map.
- TickRoom (MainLoop.Controller.TickRoom): ends as `Tick`, with the corrected map.
- ShouldUpdateRoom1 (MainLoop.Controller.ShouldUpdateRoom1): ends as `Tick1`, with the corrected map.
- ShouldUpdateRoom2 (MainLoop.Controller.ShouldUpdateRoom2): ends as `Tick2`, with the corrected map.
- Redraw (HomeSpec.Redraw): its room ticks use the corrected map.
- RedrawIfNeeded (MainLoop.Controller.RedrawIfNeeded): ends as `Redraw`, with the corrected map.
- HandleCurrentMenu (HomeSpec.HandleCurrentMenu, MainLoop.Controller.HandleCurrentMenu): the welcome screen dispatches to the corrected `HandleWelcomeScreen`, which deselects the other room. The invariant's "not both rooms displayed" holds only for the corrected handler (Findings row 2).
- Loop (HomeSpec.Loop, MainLoop.Controller.Loop): a pass uses the corrected map and the corrected welcome handler. The kept invariant's intensity range and "not both rooms displayed" are properties of the corrected program. Without those two corrections, they fail for ambient readings of 779 and above and for the trace of Findings row 2.
- These calls are not modelled, because they are timing and I/O with no effect on state: `delay(200)`, `mainDisplay.clear()`, `Serial`/`Wire` start-up, `pinMode` (`init`), `strip.show()`, and the I²C write in `PCF8574_Write`. The expander byte itself is modelled.
- The unsigned wrap of `currentTime() - lastMotionTime` (RoomControl.cpp:242, 255) is not modelled. `HandleInactivity`, `DetectRoomMotion` and `Tick` require the last motion time to be at most `now`, and `Redraw` and `Loop` require it of both rooms (`MotionBefore`). Wrap-around of `millis()` after 49 days is one way the sketch breaks this. Turning the time wheel back is a quicker one: it lowers the wheel offset (main.cpp:98-105), the virtual time falls below a recorded motion time, and the difference wraps to about 4.29e9. The next pass then accepts motion at once, or warns and later vacates an occupied room. So `Loop` cannot be chained across a pass that turns the wheel back.
- The source calls `currentTime()` afresh each time. Within one pass of `loop()` the model uses a single virtual time.
- The unused `menuStates` field is not modelled. The room's `name` is kept but used only for display.
- `tinkercad/upload.cpp` is a single-file copy of the same sketch and is not modelled separately.

## Findings

| source | as written | input that shows it | evidently intended | confidence | as-written member | corrected member |
|---|---|---|---|---|---|---|
| src/impl/general.cpp:22-28 | `map(reading, 380, 679, 3, 0)` is not clamped, so readings above 778 give negative intensities | ambient reading 779 gives -1; 1023 gives -3 | an intensity in 0..4, with 0 for bright light | not executed | General.AsWrittenGoesNegative | General.MapOutdoorLighting |
| src/impl/main.cpp:24-34 | choosing a room sets its flag but does not clear the other room's flag | press left on the welcome screen; in the very next pass hold back and right. Back returns to the welcome screen without a redraw, right displays room 2 while room 1 stays displayed, and the room screens then act on room 1 | the room chosen is the only one displayed | not executed | HomeSpec.AsWrittenBackAndRightKeepsRoom1 | HomeSpec.BackAndRightSelectsRoom2 |
